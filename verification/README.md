# Character n-gram language model

A model, in Dafny, of `LanguageModel`: a character-level language model that
learns from a corpus which characters follow each window of `windowLength`
characters, turns the counts of each window into cumulative probabilities,
and then generates text by repeatedly drawing the next character from the
list of the text's last window.

The project has four modules:

- `CharLists` (`char_lists.dfy`): the successor list of one window. A list
  holds `CharData(chr, count, p, cp)` records. `Update` is the `update(c)`
  that training calls: it counts one more `c`, adding a record with count 1
  when `c` is new. The list class itself is not part of this model. Where
  `update` places a new record is a `Placement` parameter covering
  insertion at the front or at the back; every result in the project is
  proved for both. Insertion anywhere else (in sorted order, say) is not
  covered.
- `Probabilities` (`probabilities.dfy`): `calculateProbabilities` and
  `getRandomChar`.
- `Training` (`training.dfy`): the model state, its constructors and
  `train`. The corpus is a string. Training is proved against a reference
  definition, `Followers(corpus, W, w)`: the characters of the corpus that
  come right after an occurrence of window `w`, in corpus order.
  `Occurrences(corpus, W, w, c)` is the number of positions where `w` is
  followed by `c`.
- `Generation` (`generation.dfy`): `generate`. The values of successive
  `Math.random()` calls are a parameter `draws: nat -> real`, where
  `draws(k)` is the value of the `k`-th call made by one generation.

Probabilities are exact reals. Counts are unbounded naturals.

Points where the code's behaviour is easy to misread:

- When no record's `cp` exceeds the draw, `getRandomChar` returns a space
  (line 106).
- `generate`'s `textLength` is the length of the whole result, seed
  included: the loop at line 127 compares the full text's length with it.
  The method's own comment (line 113) calls it "the size of text to
  generate", which reads as the number of characters to add.
- The seeded constructor stores a seeded `Random` (line 21), but
  `getRandomChar` draws from `Math.random()` (line 95). So the seed never
  affects generation. In the model, neither constructor carries a random
  source.

## Model

| member | source | states |
|---|---|---|
| Training.NewModel | LanguageModel.java:19-32 | Both constructors give a model with the requested window length and no windows, which satisfies the model invariant `Valid`. |
| CharLists.Update | LanguageModel.java:58 | `update(c)` adds `c` to the set of characters in the list, raises the total count by one, grows the list only when `c` is new, keeps characters unique and counts positive, and leaves every record of another character untouched. |
| CharLists.UpdateCounts | LanguageModel.java:58 | After `update(c)`, the count of `c` is one higher and every other character's count is unchanged. |
| CharLists.UpdateAll | LanguageModel.java:51-60 | Updating a list with a sequence of characters leaves it holding its old characters plus those of the sequence, and raises the total by the sequence's length. |
| CharLists.UpdateAllCounts | LanguageModel.java:51-60 | Updating with a sequence raises each character's count by the number of times it occurs in the sequence. |
| Training.Lookup | LanguageModel.java:53-56 | The list of a window in the table; a window that is not a key reads as the new, empty list the loop creates for it, with no characters and a total of 0. |
| Training.Step | LanguageModel.java:53-58 | One turn of the reading loop adds the window as a key if it was missing and replaces the window's list by `update(c)` of it (see `CharLists.Update` and `CharLists.UpdateCounts`): `c` is in the list, its count and the total rise by one. Every other window's list is unchanged. |
| Training.StepTallies | LanguageModel.java:52-59 | One turn of the reading loop counts the next character in the list of the window before it, creating an empty list for a new window. The result is still the table updated with every window's followers so far. |
| Training.CountCorpus | LanguageModel.java:38-60 | The reading loop yields a table whose keys are the old keys plus every window followed by a character. Each list is the old list (empty for a new window) updated with that window's followers in corpus order. |
| Training.Train | LanguageModel.java:35-66 | Training counts the corpus into the existing table and then normalises every list. It keeps the model invariant: keys have the window length, and lists are non-empty, unique and counted. A corpus no longer than the window adds no key. |
| Training.NormaliseAll | LanguageModel.java:63-65 | Normalising the table keeps its windows and replaces each list by `calculateProbabilities` of it (see `Probabilities.CalculateProbabilities`), so lengths are kept and every non-empty list ends with a `cp` of 1. |
| Training.TrainedCounts | LanguageModel.java:35-66 | Per window and character, training accumulates. A window becomes a key exactly when it was one or occurs followed by a character. A character is in its list exactly when it was before or follows the window in the corpus. Its count grows by the number of such occurrences. |
| Training.TrainedFromScratch | LanguageModel.java:35-66 | For a new model: the keys are exactly the windows followed by a character. A list holds exactly the characters seen after its window. Each count is the number of times that character follows the window. |
| Training.TrainedShortCorpus | LanguageModel.java:44-60 | A new model trained on a corpus no longer than the window has an empty table. |
| Probabilities.CalculateProbabilities | LanguageModel.java:69-90 | Characters and counts are kept. Each `p` is the record's count over the list's total. Each `cp` is the sum of `p` so far, which equals the prefix's share of the total. `cp` never decreases and the last `cp` is 1. |
| Probabilities.NormalisedCounts | LanguageModel.java:69-90 | Normalising keeps the set of characters and every character's count. |
| Probabilities.NormalisedKeeps | LanguageModel.java:69-90 | Normalising keeps a list unique, counted and non-empty. |
| Probabilities.GetRandomChar | LanguageModel.java:93-107 | The result is a space or a character of the list. Which one is stated by `GetRandomCharPicks` and `GetRandomCharFallback`. |
| Probabilities.GetRandomCharPicks | LanguageModel.java:93-105 | The draw selects the first record, in list order, whose `cp` exceeds it. |
| Probabilities.GetRandomCharFallback | LanguageModel.java:106 | When no record's `cp` exceeds the draw, the result is a space. |
| Probabilities.DrawSelects | LanguageModel.java:93-107 | On a normalised list, a draw between the share of the counts before record `k` and the share up to and including it selects record `k`. The width of that interval is record `k`'s count over the total, its `p`. |
| Probabilities.DrawHitsRecord | LanguageModel.java:93-107 | On a normalised non-empty list, a draw in [0, 1) always returns one of the list's characters. |
| Generation.Extend | LanguageModel.java:123-138 | The generation loop extends the text without exceeding `textLength`. Every added character was drawn from the list of the window before it, using the next draw. It stops only at `textLength` or at a window that is not a key. |
| Generation.Generate | LanguageModel.java:116-139 | A seed shorter than the window comes back unchanged. Otherwise the result extends the seed up to at most `textLength` (or the seed's length, if longer). Each added character is drawn from its window's list, and the text ends where the loop stops. |
| Generation.GenerationUnique | LanguageModel.java:116-139 | That description has exactly one solution, the result of `Generate`. |
| Generation.GenerateKeepsSeed | LanguageModel.java:119-133 | The seed comes back unchanged when it is shorter than the window or already long enough, when its last window is not a key, or when the table is empty. |
| Generation.GeneratedFromCorpus | LanguageModel.java:116-139 | After training a new model, with draws in [0, 1) as `Math.random()` returns them, every generated character follows its window somewhere in the corpus. The fallback space is never produced unless the corpus put it there. |

## Left out

- File input: `train` reads the corpus through `In`, which is not part of this model. The model takes the corpus as a string, standing for the characters `train` actually reads, not the raw file contents; if the reader stops once only whitespace remains, trailing whitespace in the file is not in that string.
- Randomness: `Math.random()` and the seeded `Random` are not modelled. The draws are a parameter. `GeneratedFromCorpus` assumes each draw is in [0, 1), as `Math.random()` promises.
- Floating point: `p` and `cp` are exact reals. With doubles, the last `cp` can round below 1, and a draw above it then yields the fallback space. The model does not cover that case.
- The list class: its internal structure, iterators and `toString` are not modelled. Only the behaviour of `update` is modelled, and the placement of a new record is a parameter covering the front or the back of the list only.
- `toString` and `main`: output formatting and command-line handling.
- Characters: a Java `char` is a UTF-16 code unit, and `length()` and `substring` count code units, while a Dafny `char` is a whole Unicode scalar value. The model covers text without supplementary characters, where one Java `char` is one character. A supplementary character counts as two in the program but as one here, and a window holding half of a surrogate pair has no counterpart in the model.
- Training.Train: requires a window length of at least 1. With a window length of 0 and a non-empty corpus, the program fails on `substring(1)` of the empty window. It also requires the model invariant `Valid`, which every constructed and trained model satisfies.
- Training.NewModel: the window length is a natural number. Negative window lengths are not modelled.
- Probabilities.CalculateProbabilities: requires an empty list or a positive total. A non-empty list whose counts sum to 0 would give NaN in the program; no reachable list has one.
- Training.NormaliseAll: requires every list of the table to be empty or to have a positive total, for the same reason.
- Integer width: the total count in `calculateProbabilities` is a Java `int`, and counts are `int`s in the list records. Overflow past 2^31 - 1 is not modelled.
- `generate` with a negative window length is not modelled; the window length is a natural number.
