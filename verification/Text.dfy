/** Text as the programs see it: a string is a sequence of bytes, each written as the
    character with that code. Byte-wise order, decimal numerals, sorted key lists. */
module Text {

  datatype Option<+T> = None | Some(value: T) {
    predicate IsFailure() { None? }
    function PropagateFailure<U>(): Option<U> requires None? { None }
    function Extract(): T requires Some? { value }
  }

  datatype Result<+T, +E> = Ok(value: T) | Err(error: E)

  /** Strict lexicographic order, the order of Go string comparison. */
  predicate Before(a: string, b: string) {
    b != [] && (a == [] || a[0] < b[0] || (a[0] == b[0] && Before(a[1..], b[1..])))
  }

  lemma {:induction false} BeforeIsTransitive(a: string, b: string, c: string)
    requires Before(a, b) && Before(b, c)
    ensures Before(a, c)
  {
    if a != [] && a[0] == b[0] == c[0] {
      BeforeIsTransitive(a[1..], b[1..], c[1..]);
    }
  }

  lemma {:induction false} BeforeIsTotal(a: string, b: string)
    ensures Before(a, b) || a == b || Before(b, a)
    ensures !(Before(a, b) && Before(b, a))
    ensures !Before(a, a)
  {
    if a != [] {
      BeforeIsTotal(a[1..], a[1..]);
      if b != [] && a[0] == b[0] {
        BeforeIsTotal(a[1..], b[1..]);
        assert a == [a[0]] + a[1..] && b == [b[0]] + b[1..];
      }
    }
  }

  predicate StrictlySorted(ids: seq<string>) {
    forall i, j :: 0 <= i < j < |ids| ==> Before(ids[i], ids[j])
  }

  lemma {:induction false} SmallestExists(s: set<string>) returns (least: string)
    requires s != {}
    ensures least in s && forall x :: x in s && x != least ==> Before(least, x)
    decreases |s|
  {
    var x :| x in s;
    var rest := s - {x};
    least := x;
    if rest != {} {
      var r := SmallestExists(rest);
      BeforeIsTotal(x, r);
      if Before(r, x) {
        least := r;
      } else {
        forall y | y in s && y != x ensures Before(x, y) {
          if y != r { BeforeIsTransitive(x, r, y); }
        }
      }
    }
  }

  lemma LeastIsUnique(s: set<string>)
    requires s != {}
    ensures exists l :: l in s && forall x :: x in s && x != l ==> Before(l, x)
    ensures forall a, b | a in s && b in s && (forall x :: x in s && x != a ==> Before(a, x))
                          && (forall x :: x in s && x != b ==> Before(b, x)) :: a == b
  {
    var l := SmallestExists(s);
    forall a, b | a in s && b in s && (forall x :: x in s && x != a ==> Before(a, x))
                  && (forall x :: x in s && x != b ==> Before(b, x))
      ensures a == b
    {
      BeforeIsTotal(a, b);
    }
  }

  function SmallestID(s: set<string>): (least: string)
    requires s != {}
    ensures least in s && forall x :: x in s && x != least ==> Before(least, x)
  {
    LeastIsUnique(s);
    var l :| l in s && forall x :: x in s && x != l ==> Before(l, x);
    l
  }

  /** The keys in increasing order; `sort.Strings` over the keys of a map. */
  function SortedIDs(s: set<string>): (ids: seq<string>)
    ensures forall x :: x in ids <==> x in s
    ensures StrictlySorted(ids)
    ensures |ids| == |s|
    decreases |s|
  {
    if s == {} then [] else
      var least := SmallestID(s);
      [least] + SortedIDs(s - {least})
  }

  /** Only one strictly sorted list has given elements. */
  lemma {:induction false} SortedListIsUnique(a: seq<string>, b: seq<string>)
    requires StrictlySorted(a) && StrictlySorted(b)
    requires forall x :: x in a <==> x in b
    ensures a == b
    decreases |a|
  {
    assert a != [] ==> a[0] in b;
    assert b != [] ==> b[0] in a;
    if a != [] && b != [] {
      var i :| 0 <= i < |b| && b[i] == a[0];
      var j :| 0 <= j < |a| && a[j] == b[0];
      BeforeIsTotal(a[0], b[0]);
      assert a[0] == b[0];
      forall x ensures x in a[1..] <==> x in b[1..] {
        BeforeIsTotal(a[0], a[0]);
        if x in a[1..] {
          var k :| 0 < k < |a| && a[k] == x;
          assert Before(a[0], x) && x in b;
        }
        if x in b[1..] {
          var k :| 0 < k < |b| && b[k] == x;
          assert Before(b[0], x) && x in a;
        }
      }
      SortedListIsUnique(a[1..], b[1..]);
      assert a == [a[0]] + a[1..] && b == [b[0]] + b[1..];
    }
  }

  lemma {:induction false} SubsetSize<T>(a: set<T>, b: set<T>)
    requires a <= b
    ensures |a| <= |b|
  {
    if a != {} {
      var x :| x in a;
      SubsetSize(a - {x}, b - {x});
    }
  }

  // ---- decimal numerals -------------------------------------------------------

  predicate IsDigit(c: char) { '0' <= c <= '9' }

  function DigitChar(d: nat): (c: char)
    requires d < 10
    ensures IsDigit(c) && c as int - '0' as int == d
  {
    ('0' as int + d) as char
  }

  function DigitValue(c: char): nat
    requires IsDigit(c)
  {
    c as int - '0' as int
  }

  predicate AllDigits(s: string) { forall i :: 0 <= i < |s| ==> IsDigit(s[i]) }

  /** The shortest decimal numeral of n, as strconv.Itoa prints it. */
  function Decimal(n: nat): (s: string)
    ensures |s| > 0 && AllDigits(s)
    ensures |s| > 1 ==> s[0] != '0'
    ensures n > 0 ==> s[0] != '0'
  {
    if n < 10 then [DigitChar(n)] else Decimal(n / 10) + [DigitChar(n % 10)]
  }

  /** Exactly k digits, with leading zeros; n is taken modulo the k-th power of ten. */
  function Padded(n: nat, k: nat): (s: string)
    ensures |s| == k && AllDigits(s)
  {
    if k == 0 then "" else Padded(n / 10, k - 1) + [DigitChar(n % 10)]
  }

  function DecimalValue(s: string): nat
    requires AllDigits(s)
  {
    if s == [] then 0 else DecimalValue(s[..|s| - 1]) * 10 + DigitValue(s[|s| - 1])
  }

  lemma {:induction false} DecimalValueOfDecimal(n: nat)
    ensures DecimalValue(Decimal(n)) == n
  {
    if n >= 10 {
      DecimalValueOfDecimal(n / 10);
      assert Decimal(n)[..|Decimal(n)| - 1] == Decimal(n / 10);
    } else {
      assert Decimal(n)[..0] == [];
    }
  }

  lemma {:induction false} DecimalOfDecimalValue(s: string)
    requires s != [] && AllDigits(s) && (|s| > 1 ==> s[0] != '0')
    ensures Decimal(DecimalValue(s)) == s
    ensures |s| > 1 ==> DecimalValue(s) >= 10
  {
    var init := s[..|s| - 1];
    if |s| > 1 {
      DecimalOfDecimalValue(init);
      if |init| == 1 {
        assert init[..0] == [];
        assert DecimalValue(init) == DigitValue(init[0]) > 0;
      }
      assert s == init + [s[|s| - 1]];
    } else {
      assert init == [];
      assert s == [s[0]];
    }
  }

  function Pow10(k: nat): nat { if k == 0 then 1 else 10 * Pow10(k - 1) }

  lemma {:induction false} DecimalValueOfPadded(n: nat, k: nat)
    requires n < Pow10(k)
    ensures DecimalValue(Padded(n, k)) == n
  {
    if k > 0 {
      assert n / 10 < Pow10(k - 1);
      DecimalValueOfPadded(n / 10, k - 1);
      assert Padded(n, k)[..k - 1] == Padded(n / 10, k - 1);
    }
  }

  lemma {:induction false} PaddedOfDecimalValue(s: string)
    requires AllDigits(s)
    ensures DecimalValue(s) < Pow10(|s|)
    ensures Padded(DecimalValue(s), |s|) == s
  {
    if s != [] {
      var init := s[..|s| - 1];
      PaddedOfDecimalValue(init);
      TenSplit(DecimalValue(init), DigitValue(s[|s| - 1]));
      assert s == init + [s[|s| - 1]];
    }
  }

  lemma TenSplit(q: nat, r: nat)
    requires r < 10
    ensures (q * 10 + r) / 10 == q && (q * 10 + r) % 10 == r
  {
  }

  lemma PowersOfTen()
    ensures Pow10(4) == 10_000 && Pow10(10) == 10_000_000_000 && Pow10(20) == 100_000_000_000_000_000_000
  {
    assert Pow10(2) == 100;
    assert Pow10(4) == 10 * Pow10(3) == 10_000;
    assert Pow10(7) == 10 * Pow10(6) == 100 * Pow10(5) == 10_000_000;
    assert Pow10(10) == 10 * Pow10(9) == 100 * Pow10(8) == 10_000_000_000;
    assert Pow10(13) == 10 * Pow10(12) == 100 * Pow10(11) == 10_000_000_000_000;
    assert Pow10(16) == 10 * Pow10(15) == 100 * Pow10(14) == 10_000_000_000_000_000;
    assert Pow10(20) == 10 * Pow10(19) == 100 * Pow10(18) == 1000 * Pow10(17) == 100_000_000_000_000_000_000;
  }

  /** Length of a numeral: k digits are enough for numbers below the k-th power of ten. */
  lemma {:induction false} DecimalLength(n: nat, k: nat)
    requires k > 0 && n < Pow10(k)
    ensures |Decimal(n)| <= k
  {
    if n >= 10 {
      assert Pow10(1) == 10 * Pow10(0) == 10;
      DecimalLength(n / 10, k - 1);
    }
  }

  // ---- splitting ---------------------------------------------------------------

  /** strings.Split on a one-byte separator: always at least one part. */
  function Split(s: string, sep: char): (parts: seq<string>)
    ensures |parts| > 0
    ensures forall i, j :: 0 <= i < |parts| && 0 <= j < |parts[i]| ==> parts[i][j] != sep
  {
    if s == [] then [""]
    else if s[0] == sep then [""] + Split(s[1..], sep)
    else
      var parts := Split(s[1..], sep);
      [[s[0]] + parts[0]] + parts[1..]
  }

  function Join(parts: seq<string>, sep: char): string {
    if parts == [] then ""
    else if |parts| == 1 then parts[0]
    else parts[0] + ([sep] + Join(parts[1..], sep))
  }

  lemma {:induction false} JoinOfSplit(s: string, sep: char)
    ensures Join(Split(s, sep), sep) == s
  {
    if s != [] {
      JoinOfSplit(s[1..], sep);
      var parts, rest := Split(s, sep), Split(s[1..], sep);
      assert parts[1..] == if s[0] == sep then rest else rest[1..];
      assert s == [s[0]] + s[1..];
    }
  }

  /** Splitting loses no character but the separators. */
  lemma {:induction false} SplitCovers(s: string, sep: char, i: nat)
    requires i < |s| && s[i] != sep
    ensures exists k :: 0 <= k < |Split(s, sep)| && s[i] in Split(s, sep)[k]
  {
    var rest := Split(s[1..], sep);
    if i == 0 {
      assert s[0] in Split(s, sep)[0];
    } else {
      SplitCovers(s[1..], sep, i - 1);
      var k :| 0 <= k < |rest| && s[1..][i - 1] in rest[k];
      var at := if s[0] == sep then k + 1 else k;
      assert s[i] in Split(s, sep)[at];
    }
  }

  lemma {:induction false} SplitOfPart(a: string, sep: char)
    requires forall i :: 0 <= i < |a| ==> a[i] != sep
    ensures Split(a, sep) == [a]
  {
    if a != [] {
      SplitOfPart(a[1..], sep);
      assert [a[0]] + a[1..] == a;
    }
  }

  lemma {:induction false} SplitOfConcat(a: string, sep: char, b: string)
    requires forall i :: 0 <= i < |a| ==> a[i] != sep
    ensures Split(a + ([sep] + b), sep) == [a] + Split(b, sep)
  {
    var s := a + ([sep] + b);
    if a == [] {
      assert s == [sep] + b && s[1..] == b;
    } else {
      SplitOfConcat(a[1..], sep, b);
      assert s[1..] == a[1..] + ([sep] + b);
      assert [a[0]] + a[1..] == a;
    }
  }

  lemma {:induction false} SplitOfJoin(parts: seq<string>, sep: char)
    requires parts != [] && forall k :: 0 <= k < |parts| ==> sep !in parts[k]
    ensures Split(Join(parts, sep), sep) == parts
  {
    if |parts| == 1 {
      SplitOfPart(parts[0], sep);
    } else {
      SplitOfJoin(parts[1..], sep);
      SplitOfConcat(parts[0], sep, Join(parts[1..], sep));
    }
  }

  /** Splitting gives a list of parts exactly when joining the list gives the text. */
  lemma SplitExactly(s: string, sep: char, parts: seq<string>)
    requires parts != [] && forall k :: 0 <= k < |parts| ==> sep !in parts[k]
    ensures Split(s, sep) == parts <==> s == Join(parts, sep)
  {
    JoinOfSplit(s, sep);
    SplitOfJoin(parts, sep);
  }

  lemma {:induction false} SplitParts(s: string, sep: char)
    ensures forall k, c :: 0 <= k < |Split(s, sep)| && c in Split(s, sep)[k] ==> c in s && c != sep
  {
    if s != [] {
      SplitParts(s[1..], sep);
      var parts, rest := Split(s, sep), Split(s[1..], sep);
      forall k, c | 0 <= k < |parts| && c in parts[k] ensures c in s && c != sep {
        assert forall x :: x in s[1..] ==> x in s;
        if s[0] == sep {
          assert c in rest[k - 1];
        } else if k == 0 { assert c == s[0] || c in rest[0]; } else { assert c in rest[k]; }
      }
    }
  }

  // ---- small scalar checks shared by the packages -------------------------------

  /** Non-empty, bounded, visible ASCII (0x21 to 0x7e), so nothing for TrimSpace to remove. */
  predicate ValidScalar(v: string, max: nat) {
    0 < |v| <= max && forall i :: 0 <= i < |v| ==> '!' <= v[i] <= '~'
  }

  predicate AlphaNumeric(c: char) { 'a' <= c <= 'z' || 'A' <= c <= 'Z' || '0' <= c <= '9' }

  predicate LowerNumeric(c: char) { 'a' <= c <= 'z' || '0' <= c <= '9' }

  /** The owner or the name of a repository, as the policy, the registry and the client spell it. */
  predicate RepositoryPart(s: string) {
    s != "" && s != "." && s != ".." && LowerNumeric(s[0])
    && forall i :: 0 <= i < |s| ==> LowerNumeric(s[i]) || s[i] in {'.', '_', '-'}
  }

  predicate RepositoryName(r: string) {
    var parts := Split(r, '/');
    |parts| == 2 && RepositoryPart(parts[0]) && RepositoryPart(parts[1])
  }

  predicate IsLowerHex(c: char) { '0' <= c <= '9' || 'a' <= c <= 'f' }

  predicate AllLowerHex(s: string) { forall i :: 0 <= i < |s| ==> IsLowerHex(s[i]) }

  /** "sha256:" and 64 lower-case hexadecimal digits. */
  predicate IsDigest(s: string) {
    |s| == 71 && s[..7] == "sha256:" && AllLowerHex(s[7..])
  }

  type Byte = n: nat | n < 256

  type Bytes32 = b: seq<Byte> | |b| == 32 witness seq(32, _ => 0)

  /** ASCII lower case. */
  function Lower(s: string): (l: string)
    ensures |l| == |s|
  {
    seq(|s|, i requires 0 <= i < |s| => if 'A' <= s[i] <= 'Z' then (s[i] as int + 32) as char else s[i])
  }
}
