/**
  The inner generator `punct_maker(length)` of `make_punc_stopwords`:
  `''.join(x) for x in itertools.product(alphabet, repeat=length)`.
  `itertools.product` varies its rightmost position fastest, so the strings of
  length `n` are: for each character of the alphabet in order, that character
  followed by every string of length `n - 1`, in their own order.
 */
module PunctMaker {
  import opened Words

  /** `c` put in front of every string of `ws`, keeping the order. */
  function Prefixed(c: char, ws: seq<String>): seq<String> {
    seq(|ws|, i requires 0 <= i < |ws| => [c] + ws[i])
  }

  /** The blocks `Prefixed(alphabet[m], ws)` for `m` from `k` up, concatenated. */
  function ExtendFrom(alphabet: seq<char>, k: nat, ws: seq<String>): seq<String>
    requires k <= |alphabet|
    decreases |alphabet| - k
  {
    if k == |alphabet| then []
    else Prefixed(alphabet[k], ws) + ExtendFrom(alphabet, k + 1, ws)
  }

  /** `punct_maker(n)`: the strings of `itertools.product(alphabet, repeat=n)`.
      It yields `|alphabet|^n` strings; for `n = 0` the one empty string. */
  function Product(alphabet: seq<char>, n: nat): (words: seq<String>)
    ensures |words| == Pow(|alphabet|, n)
  {
    if n == 0 then [""]
    else
      var shorter := Product(alphabet, n - 1);
      ExtendFromLength(alphabet, 0, shorter);
      ExtendFrom(alphabet, 0, shorter)
  }

  lemma {:induction false} ExtendFromLength(alphabet: seq<char>, k: nat, ws: seq<String>)
    requires k <= |alphabet|
    ensures |ExtendFrom(alphabet, k, ws)| == (|alphabet| - k) * |ws|
    decreases |alphabet| - k
  {
    if k < |alphabet| {
      ExtendFromLength(alphabet, k + 1, ws);
      calc {
        |ExtendFrom(alphabet, k, ws)|;
        |ws| + (|alphabet| - (k + 1)) * |ws|;
        (|alphabet| - k) * |ws|;
      }
    }
  }

  /** A string comes out of `ExtendFrom` exactly when it starts with one of the
      characters `alphabet[k..]` and goes on with a string of `ws`. */
  lemma {:induction false} ExtendFromMembership(alphabet: seq<char>, k: nat, ws: seq<String>, w: String)
    requires k <= |alphabet|
    ensures w in ExtendFrom(alphabet, k, ws) <==> |w| > 0 && w[0] in alphabet[k..] && w[1..] in ws
    decreases |alphabet| - k
  {
    if k < |alphabet| {
      var head := Prefixed(alphabet[k], ws);
      ExtendFromMembership(alphabet, k + 1, ws, w);
      assert alphabet[k..] == [alphabet[k]] + alphabet[k + 1..];
      if |w| > 0 && w[0] == alphabet[k] && w[1..] in ws {
        var i :| 0 <= i < |ws| && ws[i] == w[1..];
        assert head[i] == w;
      }
      if w in head {
        var i :| 0 <= i < |head| && head[i] == w;
        assert w[1..] == ws[i];
      }
    }
  }

  /** With a repetition-free alphabet every string out of `ExtendFrom(alphabet, k, _)`
      starts with a character ranked `k` or later. */
  lemma {:induction false} ExtendFromRanks(alphabet: seq<char>, k: nat, ws: seq<String>, w: String)
    requires Distinct(alphabet) && k <= |alphabet|
    requires w in ExtendFrom(alphabet, k, ws)
    ensures |w| > 0 && k <= Rank(alphabet, w[0]) < |alphabet|
  {
    ExtendFromMembership(alphabet, k, ws, w);
    var m :| 0 <= m < |alphabet[k..]| && alphabet[k..][m] == w[0];
    RankOfDistinct(alphabet, k + m);
  }

  lemma {:induction false} ExtendFromSorted(alphabet: seq<char>, k: nat, ws: seq<String>)
    requires Distinct(alphabet) && k <= |alphabet|
    requires LexSorted(alphabet, ws)
    ensures LexSorted(alphabet, ExtendFrom(alphabet, k, ws))
    decreases |alphabet| - k
  {
    if k < |alphabet| {
      var head, tail := Prefixed(alphabet[k], ws), ExtendFrom(alphabet, k + 1, ws);
      ExtendFromSorted(alphabet, k + 1, ws);
      RankOfDistinct(alphabet, k);
      var s := head + tail;
      forall i, j | 0 <= i < j < |s| ensures LexLess(alphabet, s[i], s[j]) {
        if j < |head| {
          assert s[i][1..] == ws[i] && s[j][1..] == ws[j];
        } else if i < |head| {
          ExtendFromRanks(alphabet, k + 1, ws, tail[j - |head|]);
        } else {
          assert s[i] == tail[i - |head|] && s[j] == tail[j - |head|];
        }
      }
    }
  }

  lemma {:induction false} OverAlphabetTail(alphabet: seq<char>, w: String)
    requires |w| > 0
    ensures OverAlphabet(alphabet, w) <==> w[0] in alphabet && OverAlphabet(alphabet, w[1..])
  {
  }

  /** `punct_maker(n)` yields exactly the strings of length `n` over the alphabet. */
  lemma {:induction false} ProductMembership(alphabet: seq<char>, n: nat, w: String)
    ensures w in Product(alphabet, n) <==> |w| == n && OverAlphabet(alphabet, w)
  {
    if n > 0 {
      ExtendFromMembership(alphabet, 0, Product(alphabet, n - 1), w);
      assert alphabet[0..] == alphabet;
      if |w| > 0 {
        ProductMembership(alphabet, n - 1, w[1..]);
        OverAlphabetTail(alphabet, w);
      }
    }
  }

  /** With a repetition-free alphabet `punct_maker(n)` is strictly increasing in
      the product order, so it yields no string twice. */
  lemma {:induction false} ProductSorted(alphabet: seq<char>, n: nat)
    requires Distinct(alphabet)
    ensures LexSorted(alphabet, Product(alphabet, n))
  {
    if n > 0 {
      ProductSorted(alphabet, n - 1);
      ExtendFromSorted(alphabet, 0, Product(alphabet, n - 1));
    }
  }

  /** Block `b`, position `j` of `ExtendFrom(alphabet, k, ws)` is
      `alphabet[k + b]` followed by `ws[j]`. */
  lemma {:induction false} ExtendFromAt(alphabet: seq<char>, k: nat, ws: seq<String>, b: nat, j: nat)
    requires k + b < |alphabet| && j < |ws|
    ensures b * |ws| + j < |ExtendFrom(alphabet, k, ws)|
    ensures ExtendFrom(alphabet, k, ws)[b * |ws| + j] == [alphabet[k + b]] + ws[j]
    decreases b
  {
    ExtendFromLength(alphabet, k, ws);
    MulMonotone(b + 1, |alphabet| - k, |ws|);
    if b > 0 {
      ExtendFromAt(alphabet, k + 1, ws, b - 1, j);
      assert b * |ws| + j == |ws| + ((b - 1) * |ws| + j);
    }
  }

  lemma MulMonotone(a: nat, b: nat, c: nat)
    ensures a <= b ==> a * c <= b * c
  {
  }

  /** The odometer reading of `w`: its characters' ranks read as the digits
      of a number in base `|alphabet|`, most significant first. */
  function Reading(alphabet: seq<char>, w: String): nat {
    if w == [] then 0
    else
      var digit, place := Rank(alphabet, w[0]), Pow(|alphabet|, |w| - 1);
      MulMonotone(0, digit, place);
      digit * place + Reading(alphabet, w[1..])
  }

  /** `punct_maker(n)` runs like an odometer whose rightmost wheel turns
      fastest: every string `w` over the alphabet stands at position
      `Reading(alphabet, w)` of `punct_maker(|w|)`. */
  lemma {:induction false} ProductPosition(alphabet: seq<char>, w: String)
    requires OverAlphabet(alphabet, w)
    ensures Reading(alphabet, w) < |Product(alphabet, |w|)|
    ensures Product(alphabet, |w|)[Reading(alphabet, w)] == w
  {
    if w != [] {
      OverAlphabetTail(alphabet, w);
      ProductPosition(alphabet, w[1..]);
      ExtendFromAt(alphabet, 0, Product(alphabet, |w| - 1), Rank(alphabet, w[0]), Reading(alphabet, w[1..]));
    }
  }
}
