/**
  Strings over an alphabet, the product order on them, and the counting
  facts that the punctuation-word generator is specified with.
 */
module Words {

  /** A Python `str`, as a sequence of characters. */
  type String = seq<char>

  /** Every character of `w` belongs to `alphabet`. */
  predicate OverAlphabet(alphabet: seq<char>, w: String) {
    forall k :: 0 <= k < |w| ==> w[k] in alphabet
  }

  /** No element occurs twice in `s`. */
  predicate Distinct<T(==)>(s: seq<T>) {
    forall i, j :: 0 <= i < j < |s| ==> s[i] != s[j]
  }

  /** Position of the first occurrence of `c` in `alphabet`, or `|alphabet|`
      when `c` does not occur. */
  function Rank(alphabet: seq<char>, c: char): (k: nat)
    ensures k <= |alphabet|
    ensures k < |alphabet| <==> c in alphabet
    ensures k < |alphabet| ==> alphabet[k] == c
    ensures forall j :: 0 <= j < k ==> alphabet[j] != c
  {
    if alphabet == [] then 0
    else if alphabet[0] == c then 0
    else 1 + Rank(alphabet[1..], c)
  }

  lemma RankOfDistinct(alphabet: seq<char>, k: nat)
    requires Distinct(alphabet) && k < |alphabet|
    ensures Rank(alphabet, alphabet[k]) == k
  {
  }

  /** Lexicographic order in which a character is ranked by its position in
      the alphabet: the order of `itertools.product` on one length. */
  predicate LexLess(alphabet: seq<char>, u: String, v: String)
    decreases |u|
  {
    && |u| > 0 && |v| > 0
    && (|| Rank(alphabet, u[0]) < Rank(alphabet, v[0])
        || (u[0] == v[0] && LexLess(alphabet, u[1..], v[1..])))
  }

  /** Shorter strings first, and strings of one length in `LexLess` order. */
  predicate ShortLex(alphabet: seq<char>, u: String, v: String) {
    |u| < |v| || (|u| == |v| && LexLess(alphabet, u, v))
  }

  predicate LexSorted(alphabet: seq<char>, s: seq<String>) {
    forall i, j :: 0 <= i < j < |s| ==> LexLess(alphabet, s[i], s[j])
  }

  predicate ShortLexSorted(alphabet: seq<char>, s: seq<String>) {
    forall i, j :: 0 <= i < j < |s| ==> ShortLex(alphabet, s[i], s[j])
  }

  lemma {:induction false} LexLessIrreflexive(alphabet: seq<char>, u: String)
    ensures !LexLess(alphabet, u, u)
  {
    if |u| > 0 {
      LexLessIrreflexive(alphabet, u[1..]);
    }
  }

  /** A strictly ordered list repeats nothing. */
  lemma {:induction false} ShortLexSortedIsDistinct(alphabet: seq<char>, s: seq<String>)
    requires ShortLexSorted(alphabet, s)
    ensures Distinct(s)
  {
    forall i, j | 0 <= i < j < |s| ensures s[i] != s[j] {
      LexLessIrreflexive(alphabet, s[i]);
    }
  }

  /** In a list without repetitions every value occurs once or not at all. */
  lemma {:induction false} DistinctOccurrences<T>(s: seq<T>, x: T)
    requires Distinct(s)
    ensures multiset(s)[x] == if x in s then 1 else 0
  {
    if s != [] {
      assert s == [s[0]] + s[1..];
      assert Distinct(s[1..]);
      DistinctOccurrences(s[1..], x);
      if x == s[0] {
        assert x !in s[1..];
      }
    }
  }

  /** `b` to the power `n`. */
  function Pow(b: nat, n: nat): nat {
    if n == 0 then 1 else b * Pow(b, n - 1)
  }

  /** The sum of `b^k` for `k` from 0 to `n`; 0 when `n` is negative. */
  function GeomSum(b: nat, n: int): nat
    decreases n + 1
  {
    if n < 0 then 0 else GeomSum(b, n - 1) + Pow(b, n)
  }

  lemma {:induction false} GeomSumMonotone(b: nat, m: int, n: int)
    requires m <= n
    ensures GeomSum(b, m) <= GeomSum(b, n)
    decreases n - m
  {
    if m < n {
      GeomSumMonotone(b, m, n - 1);
    }
  }

  lemma {:induction false} PowOfZero(n: nat)
    requires n > 0
    ensures Pow(0, n) == 0
  {
  }

  lemma {:induction false} GeomSumOfZero(n: int)
    requires n >= 0
    ensures GeomSum(0, n) == 1
    decreases n
  {
    if n > 0 {
      GeomSumOfZero(n - 1);
      PowOfZero(n);
    }
  }
}
