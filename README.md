# Phonorm core in Dafny

This project models the data pipeline of Phonorm, a character-level
grapheme-to-phoneme sequence-to-sequence system, and proves properties of it:

- the character vocabulary `charmap` (phonorm/prepare.py), a class whose
  methods change its maps in place, proved against functions on its value;
- the tensor codec (phonorm/utilities.py): building the input and output
  charmaps from word pairs, index lists padded to `max_length`, the one-hot
  encoder with its one-step-ahead shift (an `array3<int>` filled by nested
  loops), and the decoder that maps one-hot rows back to text;
- the greedy decoding loop `decode_sequence` (phonorm/evaluate.py), with the
  trained encoder and decoder networks as function parameters;
- the corpus helpers: `to_pairs`, `cv_splits` and `filter_homophone`
  (preprocessing/utils.py), and `flatten_word_list` and `preprocess_data`
  (preprocessing/extract_wikipedia_data.py).

Files: `wrappers.dfy` (Option, Result), `sequences.dfy` (order-preserving
filters), `pystrings.dfy` (the Python `str`
operations the code uses), `prepare.dfy`, `utilities.dfy`, `evaluate.dfy`,
`wikipedia.dfy`, `corpus.dfy`. Python exceptions are modelled as `Failure`
values or a false `ok` flag, carrying the state Python leaves behind.

Quirks of the code that the model keeps:

- `one_hot_encode` has no `<UNK>` fallback. An unknown token is a KeyError
  (`EncodeError.UnknownSymbol`).
- `index_from_word` falls back to the literal text `"<UNK>"`, not to its index.
- `decode_sequence` strips every leading and trailing newline (`strip("\n")`),
  not only a trailing end symbol.
- `tensor_from_pair` pads with the index of `<UNK>`, not `<PAD>`.
- In split mode `max_length` counts whitespace-free characters, while
  `one_hot_encode` writes one row per `split(" ")` piece. `Utilities.SplitModeOverflow`
  shows a word whose own vocabulary cannot encode it.

## Model

| member | source | states |
|---|---|---|
| PyStrings.Squeeze | phonorm/prepare.py:42-44 | `"".join(word.split())` holds exactly the characters of the word that are not whitespace and is no longer than the word |
| PyStrings.SqueezeCounts | phonorm/prepare.py:42-44 | every non-whitespace character is kept as often as it occurs and whitespace never, so the split-mode length is the number of non-whitespace characters |
| PyStrings.SqueezeNoSpace | phonorm/prepare.py:42-44 | a word without whitespace keeps its length under that count |
| PyStrings.SplitSpace | phonorm/prepare.py:46 | `split(" ")` yields at least one piece, no piece holds a space, and joining the pieces with spaces gives the word back |
| PyStrings.SplitJoin | phonorm/prepare.py:46 | splitting at spaces undoes joining space-free pieces |
| PyStrings.Chars | phonorm/prepare.py:55 | `list(word)` has one one-character string per character |
| PyStrings.ConcatChars | phonorm/utilities.py:175 | joining the characters of a string gives the string |
| PyStrings.LStripNewlines | phonorm/evaluate.py:60 | left stripping removes only leading newlines and leaves a suffix that does not start with one |
| PyStrings.RStripNewlines | phonorm/evaluate.py:60 | right stripping removes only trailing newlines and leaves a prefix that does not end with one |
| PyStrings.StripNewlines | phonorm/evaluate.py:60 | `strip("\n")` is a stretch of the text with only newlines around it, and it neither starts nor ends with a newline |
| PyStrings.StripWithoutNewlines | phonorm/evaluate.py:60 | text without newlines is returned unchanged |
| PyStrings.Lower | preprocessing/extract_wikipedia_data.py:75 | `lower()` keeps the length and lowers each character on its own |
| Prepare.FreshWellFormed | phonorm/prepare.py:11-25 | a new charmap maps `<PAD>`, `<UNK>`, tab and newline to 0..3 and back, has n_chars 4, max_length 0 and no counts, and satisfies the invariant |
| Prepare.CharMap.constructor | phonorm/prepare.py:11-25 | the object starts in that state with the given name and split mode |
| Prepare.AddCharUnseen | phonorm/prepare.py:67-72 | an unseen symbol gets index n_chars in both maps with count 1, and n_chars grows by exactly one |
| Prepare.AddCharKnown | phonorm/prepare.py:74-78 | a known symbol changes neither map nor n_chars; only its count grows by one, and tab or newline change nothing |
| Prepare.AddCharFails | phonorm/prepare.py:74-78 | on a well-formed charmap `addChar` raises exactly for `<PAD>` and `<UNK>` |
| Prepare.AddCharPreserves | phonorm/prepare.py:59-78 | `addChar` keeps the invariant: mutually inverse maps, indices exactly 0..n_chars-1, n_chars equal to the number of symbols, sentinels in place, counts only for non-sentinels |
| Prepare.AddCharFrame | phonorm/prepare.py:59-78 | density of indices, the sentinels and the counts are each kept separately |
| Prepare.CharMap.AddChar | phonorm/prepare.py:59-78 | the method keeps the invariant and leaves the fields as the `addChar` function says, unchanged when it raises |
| Prepare.AddSymbolsPreserves | phonorm/prepare.py:46-47 | a run of `addChar` calls keeps the invariant, including at the symbol where it raised |
| Prepare.AddSymbolsStable | phonorm/prepare.py:55-57 | no index is ever reassigned, n_chars never shrinks, max_length is untouched |
| Prepare.AddSymbolsFails | phonorm/prepare.py:46-47 | a run raises exactly when one of its symbols is `<PAD>` or `<UNK>` |
| Prepare.AddSymbolsKeys | phonorm/prepare.py:55-57 | after a successful run the known symbols are the old ones plus those registered |
| Prepare.AddSymbolsCounts | phonorm/prepare.py:67-78 | each non-sentinel symbol's count grows by the number of times it occurs in the run |
| Prepare.VocabSize | phonorm/prepare.py:16-22 | n_chars is the number of counted symbols plus the four sentinels |
| Prepare.AddWordMaxLength | phonorm/prepare.py:37-53 | `addWord` sets max_length to the larger of the old value and the word's length (whitespace-free count in split mode), keeps the invariant and all known indices, even when it raises |
| Prepare.AddWordChars | phonorm/prepare.py:49-57 | without split mode `addWord` never raises and every character of the word is known afterwards |
| Prepare.AddWordSplitFails | phonorm/prepare.py:40-47 | in split mode `addWord` raises exactly when a `split(" ")` piece is `<PAD>` or `<UNK>` |
| Prepare.AddWordsPreserves | phonorm/prepare.py:27-57 | registering a list of words keeps the invariant |
| Prepare.AddWordsMaxLength | phonorm/prepare.py:37-53 | after a list of words, max_length is at least the old value and every word's length, and equals one of them |
| Prepare.AddWordsChars | phonorm/prepare.py:49-57 | without split mode a list of words never raises |
| Prepare.AddSymbolsCharSymbols | phonorm/prepare.py:59-78 | registering one-character symbols keeps every symbol a sentinel or a single character |
| Prepare.AddWordsCharSymbols | phonorm/prepare.py:49-57 | without split mode, registering any list of words keeps every symbol a sentinel or a single character |
| Prepare.CatCar | phonorm/prepare.py:27-78 | adding "cat" then "car" gives n_chars 8, max_length 3, count 2 for `c` and index 7 for `r` |
| Prepare.CharMap.AddWord | phonorm/prepare.py:27-57 | the method raises max_length first, then adds each token in order, keeping the invariant, and stops at the first KeyError as the `addWord` function says |
| Utilities.CreateMapping | phonorm/utilities.py:7-25 | two fresh well-formed charmaps: the input one character-level and fed every `pair[0]`, the output one in the given mode and fed every `pair[1]`; it raises exactly when the output side does |
| Utilities.AddPairs | phonorm/utilities.py:18-22 | the loop feeds each pair's spelling to the input charmap and its pronunciation to the output charmap, in order; it stops exactly when the output side raises, and otherwise leaves each charmap as registering all its words says, both still well-formed |
| Utilities.TensorFromWord | phonorm/utilities.py:27-39 | one item per character: the character's own index exactly where it is known, the text `"<UNK>"` elsewhere |
| Utilities.IndexFromWordRoundTrip | phonorm/utilities.py:27-31 | every known character's item is an index that `index2char` maps back to that character, whatever the other characters are; over known characters the list spells the word |
| Utilities.IndexFromWordUnknown | phonorm/utilities.py:31 | an unknown character becomes the text `"<UNK>"`, never the index of `<UNK>` |
| Utilities.TensorFromPair | phonorm/utilities.py:41-59 | each side is its index list followed by the `<UNK>` index up to max_length, never truncated, of length max(len(word), max_length) |
| Utilities.OneHotEncode | phonorm/utilities.py:61-133 | a new (N, max_length, n_chars) array whose cell [n, p, k] is 1 exactly when the token written to row p of entry n has index k (token p, or token p+1 one step ahead); otherwise the first KeyError or IndexError in loop order |
| Utilities.EncodeEntry | phonorm/utilities.py:97-130 | the loop over one entry's tokens reports exactly that entry's first KeyError or IndexError, fills its all-zero slab with the one-hot cells when there is none, and leaves every other entry's slab untouched |
| Utilities.EntryFaultNone | phonorm/utilities.py:97-130 | an entry encodes without error exactly when every token is known and each written row and index is in range |
| Utilities.EncodedRows | phonorm/utilities.py:85-88 | an entry's slab has max_length rows of n_chars cells |
| Utilities.EncodedRowShape | phonorm/utilities.py:97-130 | each row sums to 1 with its argmax at the written token's index, or is all zero past the tokens (and at the last token's row one step ahead) |
| Utilities.ArgMax | phonorm/utilities.py:172 | `np.argmax` returns an index holding the largest value, before which every value is strictly smaller |
| Utilities.DecodePosition | phonorm/utilities.py:135-146 | the lookup succeeds exactly for indices in `index2char`, and on a well-formed charmap gives the symbol with that index |
| Utilities.DecodeFromOhe | phonorm/utilities.py:149-175 | skips rows whose sum is not positive, joins the symbols of the other rows' argmaxes in order, and fails with the first index that has no symbol |
| Utilities.EncodeDecodeTokens | phonorm/utilities.py:97-130 | decoding the encoding of known tokens that fit gives the tokens; one step ahead it gives them without the first |
| Utilities.EncodeDecodeWord | phonorm/tests.py:23-46 | in character mode decoding a word's encoding gives the word, and its shifted encoding gives the word without its first character |
| Utilities.SplitTwoSpaces | phonorm/prepare.py:42-46 | "a  b" has 2 non-whitespace characters but 3 `split(" ")` pieces |
| Utilities.SplitModeOverflow | phonorm/utilities.py:97-112 | with the vocabulary built from "a  b" in split mode, max_length is 2 and encoding "a  b" raises IndexError at row 2 |
| Evaluate.DecodeSequence | phonorm/evaluate.py:11-60 | starts from the tab index and the encoder's state, feeds each step's argmax back with the new state, appends its symbol, stops at a newline or past max_length, and returns the text stripped of newlines; otherwise the error Python raises |
| Evaluate.GreedyEnds | phonorm/evaluate.py:38-51 | with non-empty symbols the loop ends within max_length + 1 - len(sentence) steps |
| Evaluate.GreedyFuel | phonorm/evaluate.py:38-58 | a larger step budget than needed gives the same outcome |
| Evaluate.DecodeBudget | phonorm/evaluate.py:38-51 | with non-empty symbols max_length + 1 steps always suffice, and the budget is not observable beyond that |
| Evaluate.GreedyStops | phonorm/evaluate.py:45-51 | the text returned extends what was decoded so far and is longer than max_length or ends in a newline |
| Evaluate.GreedyFirstStop | phonorm/evaluate.py:38-51 | when only the newline symbol holds a newline, the loop stops at the first chance: the result is a text of at most max_length characters that gained no newline, followed by one symbol that is the newline or takes the text past max_length |
| Evaluate.CharModeSymbols | phonorm/prepare.py:49-57 | every output charmap built without split mode has non-empty symbols, and only its newline symbol holds a newline, so `DecodeBudget` and `GreedyFirstStop` apply to it |
| Evaluate.GreedyEmptySymbol | phonorm/evaluate.py:38-58 | a decoder that keeps predicting the empty-string symbol never changes the text, so the loop never stops and every budget runs out |
| Evaluate.DecodeEmptySymbol | phonorm/evaluate.py:27-60 | with a well-formed charmap holding `""`, as split mode gives for a double space, such a decoder makes `decode_sequence` fail for every budget |
| Evaluate.GreedyConstant | phonorm/evaluate.py:38-58 | a decoder always predicting one non-newline character appends it until the text has max_length + 1 characters |
| Evaluate.DecodeConstant | phonorm/evaluate.py:27-60 | such a decoder makes `decode_sequence` return that character max_length + 1 times |
| Evaluate.DecodeImmediateEnd | phonorm/evaluate.py:30-60 | if the first prediction is the newline symbol the result is the empty text |
| ExtractWikipedia.Flattened | preprocessing/extract_wikipedia_data.py:63-124 | one record from the first pronunciation when there is exactly one or `one_per_observation` is set, else one per pronunciation in order; each record has the id, lower-cased title, and X-SAMPA between tab and newline; the errors a message string or an empty list raise |
| ExtractWikipedia.FlattenWordList | preprocessing/extract_wikipedia_data.py:98-124 | the loop filling the preallocated list gives exactly those records |
| ExtractWikipedia.KeptEntries | preprocessing/extract_wikipedia_data.py:34 | exactly the entries whose pronunciation is a list remain, each as often as in the input and in the input's order |
| ExtractWikipedia.PreprocessData | preprocessing/extract_wikipedia_data.py:16-61 | on success some record has the requested language and the language set is exactly the records' languages |
| ExtractWikipedia.FlattenAllRecords | preprocessing/extract_wikipedia_data.py:45-48 | every flattened record carries its entry's id and lower-cased title, and X-SAMPA between tab and newline |
| ExtractWikipedia.FlattenAllFirst | preprocessing/extract_wikipedia_data.py:79-95 | with `one_per_observation` and non-empty lists there is exactly one record per entry, built from its first pronunciation |
| ExtractWikipedia.PreprocessDataLanguage | preprocessing/extract_wikipedia_data.py:54-58 | `preprocess_data` fails for the language exactly when flattening succeeds and no record has it |
| ExtractWikipedia.PreprocessDataRecords | preprocessing/extract_wikipedia_data.py:45-61 | on success the records are the flattening of all list-valued entries, in every language |
| ExtractWikipedia.PreprocessDataNothingFound | preprocessing/extract_wikipedia_data.py:34 | data made only of "not found" messages fails for every language |
| PreprocessingUtils.ToPairs | preprocessing/utils.py:13-23 | one `[word, X_SAMPA]` pair per record, in order |
| PreprocessingUtils.PairsOfCorpus | preprocessing/utils.py:22-23 | the pairs of a preprocessed corpus spell the lower-cased title of an entry, and their pronunciations begin with tab and end with newline |
| PreprocessingUtils.SliceBound | preprocessing/utils.py:46 | a slice bound lands inside the list and is unchanged when already inside |
| PreprocessingUtils.SplitsPartition | preprocessing/utils.py:39-46 | with room for both, dev has ndev elements, test ntest, train the rest, and train + dev + test is the shuffled list |
| PreprocessingUtils.SplitsOverlap | preprocessing/utils.py:39-46 | without room the slices overlap: five elements with ndev = ntest = 3 give train of four, empty dev and test of three |
| PreprocessingUtils.Shuffle | preprocessing/utils.py:44 | the shuffle permutes the caller's list in place |
| PreprocessingUtils.CvSplits | preprocessing/utils.py:26-46 | the argument ends up a permutation of itself, and the result is the three slices of it |
| PreprocessingUtils.CvSplitsPermutation | preprocessing/utils.py:39-46 | with room for both, the three lists together are a permutation of the input, with dev and test of the requested sizes |
| PreprocessingUtils.Keep | preprocessing/utils.py:61-68 | the filtered list holds exactly the pairs passing the pronunciation test, with their multiplicities, in original order |
| PreprocessingUtils.FilterHomophone | preprocessing/utils.py:49-71 | dev holds the pairs pronounced like the first list, tst those like the second, trn those like neither, each in original order |
| PreprocessingUtils.FilterHomophoneSizes | preprocessing/utils.py:61-68 | with disjoint lists the three lengths add up to the input's |
| PreprocessingUtils.FilterHomophoneAtLeast | preprocessing/utils.py:61-68 | the three lengths never add up to less than the input's |
| PreprocessingUtils.FilterHomophoneOverlap | preprocessing/utils.py:61-68 | a pair pronounced like a word of both lists makes the three lengths add up to more than the input's |

## Left out

- phonorm/Seq2Seq.py is not part of this model: Keras model wiring, training and saving are a foreign library and file I/O.
- `evaluate_bleu`, `plot_bleu` and `plot_model_history` are left out: BLEU is floating point, the rest is plotting.
- The module-level scripts of preprocessing/extract_wikipedia_data.py, preprocessing/preprocess_cmudict_data.py and preprocessing/wikipedia_misspelled.py are left out: they download, load, save, shuffle and print. phonorm/tests.py is not modelled; `Utilities.EncodeDecodeTokens` and `Utilities.EncodeDecodeWord` state the round trips it prints.
- `preprocess_data`'s `max_word_length` option is left out, because it needs a floating-point mean and variance. The model is that function with the option off.
- PreprocessingUtils.FilterHomophone: `trn` is built with `np.array` as a two-dimensional string array; the model keeps it a list of pairs, which has the same length and rows.
- Tensor cells are integers 0 and 1 rather than float32. The `np.asarray` conversion in `tensor_from_pair` is not modelled, so a list mixing indices and the `"<UNK>"` text stays a list of `Item`s.
- The encoder and decoder networks of `decode_sequence` are function parameters returning a state and an integer score row. The unused `mapping_input` parameter is omitted.
- Evaluate.DecodeSequence: takes a step budget (`fuel`) that Python does not have, because with an empty-string symbol the Python loop need not end. `Evaluate.DecodeEmptySymbol` proves that case: a decoder that keeps predicting `""` exhausts every budget. `Evaluate.DecodeBudget` shows the budget is not observable when every symbol is non-empty, which `Evaluate.CharModeSymbols` proves of every character-mode output charmap.
- ExtractWikipedia.PreprocessError: `LanguageNotPresent` stands for the `phonormException` that extract_wikipedia_data.py:58 raises. That name is defined nowhere in the repository, so Python actually raises NameError there. The model keeps the intended error rather than the NameError.
- PyStrings.Lower: lowers ASCII and Latin-1 capitals only, not the full Unicode case mapping of `str.lower()`.
- Utilities.TensorFromPair: requires `<UNK>` in both vocabularies. Every charmap has it, but Python would only raise a KeyError when padding is actually needed.
- PreprocessingUtils.Shuffle: the numpy random generator is replaced by the draws parameter, so any permutation reachable by Fisher-Yates can come out. `seed` is accepted and ignored, since `random.seed` does not seed numpy.
- Entries and pronunciations are typed records. A wikt2pron dictionary missing a key, and the KeyError that would raise, are not modelled.
- The charmap's `name` is stored and never read. The codec and decoder read a charmap through its value `Vocab`, so aliasing between charmap objects is not modelled there.
