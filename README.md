# Punctuation stopwords of the Twitter-bio preprocessor, in Dafny

This project models the stopword-list builder of `UserPreProcessor`, the
text-preprocessing class of a project that clusters Twitter users by the words
in their bios:

- `make_punc_stopwords(max_length)` lists every punctuation "word" with 0 to
  `max_length` characters. The words of length `n` come from
  `itertools.product(string.punctuation, repeat=n)`, joined into strings. The
  lengths are chained shortest first.
- `generate_stopwords()` takes that list for the default length 4 and appends
  each punctuation character once more, in alphabet order.

Layout:

- `words.dfy` (module `Words`): strings over an alphabet; the rank of a
  character (the position of its first occurrence in the alphabet); the product
  order `LexLess` and the shortlex order `ShortLex`; repetition-freeness and
  occurrence counts; powers `Pow` and the geometric sums `GeomSum`.
- `punct_maker.dfy` (module `PunctMaker`): the inner generator `punct_maker` as
  `Product(alphabet, n)`. The definition follows `itertools.product`: each
  character in alphabet order, followed by every string one shorter, in that
  order.
- `user_preprocessor.dfy` (module `UserPreProcessor`): `PUNCTUATION` (Python's
  `string.punctuation`), `MakePuncStopwords`, and the method `GenerateStopwords`.
  That method keeps the source's loop that appends to the list. Its loop
  invariant says the generated prefix is unchanged and the first `i` alphabet
  characters have been appended.

The alphabet is a parameter standing for Python's global constant
`string.punctuation`. `PUNCTUATION` is the value the program uses. `PunctuationDistinct` shows it has
32 characters, none repeated. `PunctuationStopwordsCount` shows that
`make_punc_stopwords()` gives 1,082,401 words over it. With the size that
`GenerateStopwords` ensures, `generate_stopwords()` gives 1,082,433. The class
has no fields, so its methods are module members.

`max_length` is an `int`. The code raises no error for a negative value: it
gives an empty `range` and so an empty list, and the model does the same. The
strings of one length are the Cartesian product (order matters, repeats
allowed), not combinations.

## Model

| member | source | states |
|---|---|---|
| `PunctMaker.ExtendFromLength` | notebooks/classes/user_preprocessor.py:9-10 | the blocks of a product step for the alphabet characters from position `k` on hold (alphabet size - `k`) times (number of shorter strings) strings |
| `PunctMaker.ExtendFromMembership` | notebooks/classes/user_preprocessor.py:9-10 | a product step yields a string iff it starts with one of the alphabet characters `k..` and continues with a string one step shorter |
| `PunctMaker.ExtendFromRanks` | notebooks/classes/user_preprocessor.py:9-10 | with a repetition-free alphabet, every string from the blocks `k..` starts with a character of rank at least `k` |
| `PunctMaker.ExtendFromSorted` | notebooks/classes/user_preprocessor.py:9-10 | a product step keeps the strings strictly increasing in product order: first by the leading character's rank, then by the rest |
| `PunctMaker.ExtendFromAt` | notebooks/classes/user_preprocessor.py:9-10 | in a product step, entry `j` of block `b` is alphabet character `k + b` followed by shorter string `j` |
| `PunctMaker.Product` | notebooks/classes/user_preprocessor.py:8-10 | `punct_maker(n)` yields exactly (alphabet size)^`n` strings, one for `n = 0`; which strings, in which order and at which position are stated by `ProductMembership`, `ProductSorted` and `ProductPosition` |
| `PunctMaker.ProductMembership` | notebooks/classes/user_preprocessor.py:8-10 | `punct_maker(n)` yields a string iff it has length `n` and every character is in the alphabet (both directions) |
| `PunctMaker.ProductSorted` | notebooks/classes/user_preprocessor.py:8-10 | with a repetition-free alphabet, `punct_maker(n)` is strictly increasing in lexicographic order by alphabet position, so nothing is repeated |
| `PunctMaker.ProductPosition` | notebooks/classes/user_preprocessor.py:9-10 | `itertools.product` works like an odometer: a string over the alphabet stands at the position given by its character ranks read as a number in base alphabet size, rightmost digit fastest |
| `UserPreProcessor.MakePuncStopwords` | notebooks/classes/user_preprocessor.py:6-13 | the list has s^0 + s^1 + ... + s^`max_length` entries, s the alphabet size, and none for a negative length; its contents, order and positions are stated by the `MakePuncStopwords...` lemmas below |
| `UserPreProcessor.MakePuncStopwordsMembership` | notebooks/classes/user_preprocessor.py:9-13 | a string is in the list iff its length is at most `max_length` and all its characters are in the alphabet |
| `UserPreProcessor.MakePuncStopwordsStartsEmpty` | notebooks/classes/user_preprocessor.py:9-13 | for `max_length >= 0` the first entry is the empty string, and `make_punc_stopwords(0)` is exactly `[""]` |
| `UserPreProcessor.MakePuncStopwordsEmptyAlphabet` | notebooks/classes/user_preprocessor.py:9-13 | over an empty alphabet the list is `[""]` for every `max_length >= 0` |
| `UserPreProcessor.MakePuncStopwordsBlock` | notebooks/classes/user_preprocessor.py:11-13 | the length-`k` strings form one contiguous block, between the sums of powers up to `k - 1` and up to `k`, equal to `punct_maker(k)` |
| `UserPreProcessor.MakePuncStopwordsAt` | notebooks/classes/user_preprocessor.py:11-13 | entry `r` of `punct_maker(k)` is the list's entry `r` after the s^0 + ... + s^(`k` - 1) shorter strings |
| `UserPreProcessor.MakePuncStopwordsPosition` | notebooks/classes/user_preprocessor.py:9-13 | each string over the alphabet of length at most `max_length` is found after all shorter strings, at its odometer reading among those of its length |
| `UserPreProcessor.MakePuncStopwordsSorted` | notebooks/classes/user_preprocessor.py:9-13 | with a repetition-free alphabet the list is strictly increasing: shorter strings before longer ones, one length in product order |
| `UserPreProcessor.MakePuncStopwordsOccurrences` | notebooks/classes/user_preprocessor.py:9-13 | with a repetition-free alphabet every string over it of length at most `max_length` occurs exactly once; no other string occurs |
| `UserPreProcessor.Singletons` | notebooks/classes/user_preprocessor.py:18-19 | the strings the loop appends are one per alphabet character; `SingletonsMembership` and `SingletonsOccurrences` say which |
| `UserPreProcessor.SingletonsMembership` | notebooks/classes/user_preprocessor.py:18-19 | a string is appended iff it has one character and that character is in the alphabet |
| `UserPreProcessor.SingletonsOccurrences` | notebooks/classes/user_preprocessor.py:18-19 | with a repetition-free alphabet, the appended strings are each one-character string over the alphabet, once |
| `UserPreProcessor.StopwordsOccurrences` | notebooks/classes/user_preprocessor.py:15-20 | with a repetition-free alphabet, the length-4 list followed by the appended strings holds each one-character string over the alphabet twice, every other string over it of length at most 4 once, and nothing else |
| `UserPreProcessor.GenerateStopwords` | notebooks/classes/user_preprocessor.py:15-20 | the result is the length-4 list unchanged, followed by each alphabet character in order; its size is the length-4 count plus the alphabet size; with a repetition-free alphabet each one-character string occurs twice, every other string over the alphabet of length at most 4 once, and nothing else |
| `UserPreProcessor.PunctuationDistinct` | notebooks/classes/user_preprocessor.py:9 | `string.punctuation` has 32 characters and none repeats, so the results above for repetition-free alphabets apply to it |
| `UserPreProcessor.PunctuationStopwordsCount` | notebooks/classes/user_preprocessor.py:6-13 | over `string.punctuation`, the list `make_punc_stopwords()` builds has 1,082,401 entries; that count plus the 32 characters is 1,082,433, the size of `generate_stopwords()` by `GenerateStopwords`'s size ensures |

## Left out

- `replace_www` (notebooks/classes/user_preprocessor.py:22-26): its behaviour is that of Python's `re.sub` with a backtracking pattern over Unicode `\w`. The regular-expression library is not part of this model.
- `tweet_tokenizer` (notebooks/classes/user_preprocessor.py:28-32): it only configures and calls NLTK's `TweetTokenizer`. NLTK is not part of this model.
- The unused import of NLTK's stopword corpus (notebooks/classes/user_preprocessor.py:3) has no behaviour.
- setup.py is packaging metadata with no runtime behaviour.
- Laziness: `punct_maker` and `chain.from_iterable` are generators, but line 13 forces them into a list. The model builds the list as a value.
