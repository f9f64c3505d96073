/**
  The stopword lists of `UserPreProcessor`: `make_punc_stopwords`, every
  punctuation "word" of length 0 up to a maximum length, and
  `generate_stopwords`, that list for length 4 followed by each punctuation
  character once more. The class has no fields, so its methods are modelled
  as members of this module; the alphabet, a module constant in Python, is a
  parameter, with `PUNCTUATION` the value the program uses.
 */
module UserPreProcessor {
  import opened Words
  import opened PunctMaker

  /** Python's `string.punctuation`: the 32 ASCII punctuation characters. */
  const PUNCTUATION: String := "!\"#$%&'()*+,-./:;<=>?@[\\]^_`{|}~"

  /** The default `max_length` of `make_punc_stopwords`. */
  const DEFAULT_MAX_LENGTH: int := 4

  /** `make_punc_stopwords(max_length)`: `punct_maker(length)` for every
      `length` in `range(max_length + 1)`, chained in that order. A negative
      `max_length` gives an empty range and so an empty list. The list has
      `|alphabet|^0 + |alphabet|^1 + ... + |alphabet|^maxLength` entries. */
  function MakePuncStopwords(alphabet: seq<char>, maxLength: int): (words: seq<String>)
    ensures |words| == GeomSum(|alphabet|, maxLength)
    decreases maxLength + 1
  {
    if maxLength < 0 then []
    else MakePuncStopwords(alphabet, maxLength - 1) + Product(alphabet, maxLength)
  }

  /** The list holds exactly the strings over the alphabet no longer than `maxLength`. */
  lemma {:induction false} MakePuncStopwordsMembership(alphabet: seq<char>, maxLength: int, w: String)
    ensures w in MakePuncStopwords(alphabet, maxLength) <==> |w| <= maxLength && OverAlphabet(alphabet, w)
    decreases maxLength + 1
  {
    if maxLength >= 0 {
      MakePuncStopwordsMembership(alphabet, maxLength - 1, w);
      ProductMembership(alphabet, maxLength, w);
    }
  }

  /** For `maxLength >= 0` the first entry is the empty string, the single
      string of `product(..., repeat=0)`, and for 0 it is the only one. */
  lemma {:induction false} MakePuncStopwordsStartsEmpty(alphabet: seq<char>, maxLength: int)
    requires maxLength >= 0
    ensures |MakePuncStopwords(alphabet, maxLength)| > 0
    ensures MakePuncStopwords(alphabet, maxLength)[0] == ""
    ensures MakePuncStopwords(alphabet, 0) == [""]
    decreases maxLength
  {
    if maxLength > 0 {
      MakePuncStopwordsStartsEmpty(alphabet, maxLength - 1);
    }
  }

  /** With an empty alphabet only the empty string is generated. */
  lemma {:induction false} MakePuncStopwordsEmptyAlphabet(maxLength: int)
    requires maxLength >= 0
    ensures MakePuncStopwords([], maxLength) == [""]
  {
    GeomSumOfZero(maxLength);
    MakePuncStopwordsStartsEmpty([], maxLength);
  }

  /** The strings of length `k` sit together, between positions
      `GeomSum(|alphabet|, k - 1)` and `GeomSum(|alphabet|, k)`, in the order of
      `punct_maker(k)`. */
  lemma {:induction false} MakePuncStopwordsBlock(alphabet: seq<char>, maxLength: int, k: nat)
    requires k <= maxLength
    ensures GeomSum(|alphabet|, k - 1) <= GeomSum(|alphabet|, k) <= |MakePuncStopwords(alphabet, maxLength)|
    ensures MakePuncStopwords(alphabet, maxLength)[GeomSum(|alphabet|, k - 1)..GeomSum(|alphabet|, k)]
            == Product(alphabet, k)
    decreases maxLength
  {
    var shorter := MakePuncStopwords(alphabet, maxLength - 1);
    if k == maxLength {
      assert MakePuncStopwords(alphabet, maxLength)[|shorter|..] == Product(alphabet, k);
    } else {
      MakePuncStopwordsBlock(alphabet, maxLength - 1, k);
      GeomSumMonotone(|alphabet|, k, maxLength - 1);
      assert MakePuncStopwords(alphabet, maxLength)[..|shorter|] == shorter;
    }
  }

  /** Entry `r` of `punct_maker(k)` is entry `GeomSum(|alphabet|, k - 1) + r` of the list. */
  lemma {:induction false} MakePuncStopwordsAt(alphabet: seq<char>, maxLength: int, k: nat, r: nat)
    requires k <= maxLength && r < Pow(|alphabet|, k)
    ensures GeomSum(|alphabet|, k - 1) + r < |MakePuncStopwords(alphabet, maxLength)|
    ensures r < |Product(alphabet, k)|
            && MakePuncStopwords(alphabet, maxLength)[GeomSum(|alphabet|, k - 1) + r] == Product(alphabet, k)[r]
    decreases maxLength
  {
    if k < maxLength {
      MakePuncStopwordsAt(alphabet, maxLength - 1, k, r);
      GeomSumMonotone(|alphabet|, k, maxLength - 1);
    }
  }

  /** Every string `w` over the alphabet no longer than `maxLength` stands at
      position `GeomSum(|alphabet|, |w| - 1) + Reading(alphabet, w)`: after all
      shorter strings, at its odometer reading among those of its length. */
  lemma {:induction false} MakePuncStopwordsPosition(alphabet: seq<char>, maxLength: int, w: String)
    requires |w| <= maxLength && OverAlphabet(alphabet, w)
    ensures GeomSum(|alphabet|, |w| - 1) + Reading(alphabet, w) < |MakePuncStopwords(alphabet, maxLength)|
    ensures MakePuncStopwords(alphabet, maxLength)[GeomSum(|alphabet|, |w| - 1) + Reading(alphabet, w)] == w
  {
    ProductPosition(alphabet, w);
    MakePuncStopwordsAt(alphabet, maxLength, |w|, Reading(alphabet, w));
  }

  /** With a repetition-free alphabet the list is strictly increasing:
      shorter strings first, one length in product order. */
  lemma {:induction false} MakePuncStopwordsSorted(alphabet: seq<char>, maxLength: int)
    requires Distinct(alphabet)
    ensures ShortLexSorted(alphabet, MakePuncStopwords(alphabet, maxLength))
    decreases maxLength + 1
  {
    if maxLength >= 0 {
      var shorter, longest := MakePuncStopwords(alphabet, maxLength - 1), Product(alphabet, maxLength);
      MakePuncStopwordsSorted(alphabet, maxLength - 1);
      ProductSorted(alphabet, maxLength);
      var s := shorter + longest;
      forall i, j | 0 <= i < j < |s| ensures ShortLex(alphabet, s[i], s[j]) {
        if j < |shorter| {
        } else if i < |shorter| {
          MakePuncStopwordsMembership(alphabet, maxLength - 1, s[i]);
          ProductMembership(alphabet, maxLength, s[j]);
        } else {
          assert s[i] == longest[i - |shorter|] && s[j] == longest[j - |shorter|];
          ProductMembership(alphabet, maxLength, s[i]);
          ProductMembership(alphabet, maxLength, s[j]);
        }
      }
    }
  }

  /** With a repetition-free alphabet every string over it of length at most
      `maxLength` occurs exactly once, and no other string occurs. */
  lemma {:induction false} MakePuncStopwordsOccurrences(alphabet: seq<char>, maxLength: int, w: String)
    requires Distinct(alphabet)
    ensures multiset(MakePuncStopwords(alphabet, maxLength))[w]
            == if |w| <= maxLength && OverAlphabet(alphabet, w) then 1 else 0
  {
    MakePuncStopwordsSorted(alphabet, maxLength);
    ShortLexSortedIsDistinct(alphabet, MakePuncStopwords(alphabet, maxLength));
    DistinctOccurrences(MakePuncStopwords(alphabet, maxLength), w);
    MakePuncStopwordsMembership(alphabet, maxLength, w);
  }

  /** Each character of the alphabet as a one-character string, in alphabet
      order: one entry per character. */
  function Singletons(alphabet: seq<char>): (singles: seq<String>)
    ensures |singles| == |alphabet|
  {
    seq(|alphabet|, i requires 0 <= i < |alphabet| => [alphabet[i]])
  }

  /** The appended strings are exactly the one-character strings over the alphabet. */
  lemma {:induction false} SingletonsMembership(alphabet: seq<char>, w: String)
    ensures w in Singletons(alphabet) <==> |w| == 1 && w[0] in alphabet
  {
    var singles := Singletons(alphabet);
    if |w| == 1 && w[0] in alphabet {
      var i :| 0 <= i < |alphabet| && alphabet[i] == w[0];
      assert singles[i] == w;
    }
  }

  /** With a repetition-free alphabet the appended strings are the
      one-character strings over it, each once. */
  lemma {:induction false} SingletonsOccurrences(alphabet: seq<char>, w: String)
    requires Distinct(alphabet)
    ensures multiset(Singletons(alphabet))[w] == if |w| == 1 && w[0] in alphabet then 1 else 0
  {
    var s := Singletons(alphabet);
    assert Distinct(s) by {
      forall i, j | 0 <= i < j < |s| ensures s[i] != s[j] {
        assert s[i][0] == alphabet[i] && s[j][0] == alphabet[j];
      }
    }
    DistinctOccurrences(s, w);
    SingletonsMembership(alphabet, w);
  }

  /** Appending one more character's string extends `Singletons` by one entry. */
  lemma SingletonsStep(alphabet: seq<char>, i: nat)
    requires i < |alphabet|
    ensures Singletons(alphabet[..i + 1]) == Singletons(alphabet[..i]) + [[alphabet[i]]]
  {
  }

  /** With a repetition-free alphabet the default-length list followed by the
      one-character strings holds each one-character string over the alphabet
      twice, every other string over it of length at most 4 once, and nothing
      else. */
  lemma {:induction false} StopwordsOccurrences(alphabet: seq<char>, w: String)
    requires Distinct(alphabet)
    ensures multiset(MakePuncStopwords(alphabet, DEFAULT_MAX_LENGTH) + Singletons(alphabet))[w] ==
      if |w| == 1 && w[0] in alphabet then 2
      else if |w| <= DEFAULT_MAX_LENGTH && OverAlphabet(alphabet, w) then 1
      else 0
  {
    MakePuncStopwordsOccurrences(alphabet, DEFAULT_MAX_LENGTH, w);
    SingletonsOccurrences(alphabet, w);
  }

  /** `generate_stopwords()`: `make_punc_stopwords()` with its default length,
      then every character of the alphabet appended once more, in order. */
  method GenerateStopwords(alphabet: seq<char>) returns (stopwords: seq<String>)
    ensures stopwords == MakePuncStopwords(alphabet, DEFAULT_MAX_LENGTH) + Singletons(alphabet)
    ensures |stopwords| == GeomSum(|alphabet|, DEFAULT_MAX_LENGTH) + |alphabet|
    ensures Distinct(alphabet) ==>
      (forall w: String :: multiset(stopwords)[w] ==
        if |w| == 1 && w[0] in alphabet then 2
        else if |w| <= DEFAULT_MAX_LENGTH && OverAlphabet(alphabet, w) then 1
        else 0)
  {
    stopwords := MakePuncStopwords(alphabet, DEFAULT_MAX_LENGTH);
    ghost var generated := stopwords;
    for i := 0 to |alphabet|
      invariant stopwords == generated + Singletons(alphabet[..i])
    {
      SingletonsStep(alphabet, i);
      stopwords := stopwords + [[alphabet[i]]];
    }
    assert alphabet[..|alphabet|] == alphabet;
    if Distinct(alphabet) {
      forall w: String {
        StopwordsOccurrences(alphabet, w);
      }
    }
  }

  /** `string.punctuation` has 32 characters, none repeated. */
  lemma PunctuationDistinct()
    ensures |PUNCTUATION| == 32 && Distinct(PUNCTUATION)
  {
    AscendingIsDistinct(PUNCTUATION);
  }

  /** Characters that rise from each one to the next never repeat. */
  lemma {:induction false} AscendingIsDistinct(s: seq<char>)
    requires forall i :: 0 < i < |s| ==> s[i - 1] < s[i]
    ensures forall i, j :: 0 <= i < j < |s| ==> s[i] < s[j]
    ensures Distinct(s)
  {
    if |s| > 1 {
      AscendingIsDistinct(s[1..]);
      forall i, j | 0 <= i < j < |s| ensures s[i] < s[j] {
        if i == 0 {
          assert j == 1 || s[1..][0] < s[1..][j - 1];
        } else {
          assert s[1..][i - 1] < s[1..][j - 1];
        }
      }
    }
  }

  /** For `string.punctuation` and the default length 4 `make_punc_stopwords`
      gives 1 + 32 + 32^2 + 32^3 + 32^4 = 1,082,401 entries, and
      `generate_stopwords` 32 more. */
  lemma {:induction false} PunctuationStopwordsCount()
    ensures |MakePuncStopwords(PUNCTUATION, DEFAULT_MAX_LENGTH)| == 1082401
    ensures GeomSum(|PUNCTUATION|, DEFAULT_MAX_LENGTH) + |PUNCTUATION| == 1082433
  {
    assert |PUNCTUATION| == 32;
    assert Pow(32, 2) == 1024 && Pow(32, 3) == 32768 && Pow(32, 4) == 1048576;
    assert GeomSum(32, 4) == 1082401;
  }
}
