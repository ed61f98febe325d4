/**
 * The greedy decoding loop of phonorm/evaluate.py (`decode_sequence`).
 *
 * The trained networks are parameters: `encoder` maps the encoded input to a
 * decoder state, and `decoder` maps the previous symbol's index (the one-hot
 * target of the Python code) and a state to a score row and the next state.
 */
module Evaluate {
  import opened Wrappers
  import opened PyStrings
  import opened Prepare
  import opened Utilities

  /** Why decoding stops without a text; all but `OutOfFuel` are Python exceptions. */
  datatype DecodeError =
    | MissingStart                  // KeyError: no index for the tab start symbol
    | EmptyScores                   // ValueError: argmax of an empty score row
    | UnknownIndex(index: nat)      // KeyError: the argmax has no symbol
    | IndexOutOfRange(index: nat)   // IndexError: the index is not below n_chars
    | OutOfFuel                     // the step budget ran out before the stop condition

  /**
   * The loop from the step that feeds `index` back with `state`, having
   * decoded `sentence` so far; `fuel` bounds the number of steps.
   */
  function Greedy<S>(v: Vocab, decoder: (nat, S) -> (seq<int>, S), index: nat, state: S, sentence: string, fuel: nat)
    : Result<string, DecodeError>
    decreases fuel
  {
    if fuel == 0 then Failure(OutOfFuel)
    else
      var (scores, next) := decoder(index, state);
      if |scores| == 0 then Failure(EmptyScores)
      else
        var k := ArgMax(scores);
        if k !in v.index2char then Failure(UnknownIndex(k))
        else
          var sentence' := sentence + v.index2char[k];
          var stop := v.index2char[k] == End || |sentence'| > v.maxLength;
          if k >= v.nChars then Failure(IndexOutOfRange(k))
          else if stop then Success(sentence')
          else Greedy(v, decoder, k, next, sentence', fuel - 1)
  }

  /** `decode_sequence` with a budget of `fuel` decoder steps. */
  function Decode<X, S>(input: X, encoder: X -> S, decoder: (nat, S) -> (seq<int>, S), v: Vocab, fuel: nat)
    : Result<string, DecodeError>
  {
    var state := encoder(input);
    if Start !in v.char2index then Failure(MissingStart)
    else if v.char2index[Start] >= v.nChars then Failure(IndexOutOfRange(v.char2index[Start]))
    else
      match Greedy(v, decoder, v.char2index[Start], state, "", fuel)
      case Success(s) => Success(StripNewlines(s))
      case Failure(e) => Failure(e)
  }

  /**
   * `decode_sequence`: start from the tab symbol, feed back the argmax of
   * each score row, append its symbol, and stop at a newline or once the
   * text is longer than max_length; the text is returned without its
   * surrounding newlines.
   */
  method DecodeSequence<X, S>(input: X, encoder: X -> S, decoder: (nat, S) -> (seq<int>, S), v: Vocab, fuel: nat)
    returns (r: Result<string, DecodeError>)
    ensures r == Decode(input, encoder, decoder, v, fuel)
  {
    var states := encoder(input);
    if Start !in v.char2index {
      return Failure(MissingStart);
    }
    var target: nat := v.char2index[Start];
    if target >= v.nChars {
      return Failure(IndexOutOfRange(target));
    }
    ghost var goal := Greedy(v, decoder, target, states, "", fuel);
    var stop := false;
    var decoded := "";
    var steps := 0;
    while !stop
      invariant steps <= fuel
      invariant goal == if stop then Success(decoded) else Greedy(v, decoder, target, states, decoded, fuel - steps)
      decreases fuel - steps
    {
      if steps == fuel {
        return Failure(OutOfFuel);
      }
      var (scores, next) := decoder(target, states);
      if |scores| == 0 {
        return Failure(EmptyScores);
      }
      var k: nat := ArgMax(scores);
      if k !in v.index2char {
        return Failure(UnknownIndex(k));
      }
      var sampled := v.index2char[k];
      decoded := decoded + sampled;
      if sampled == End || |decoded| > v.maxLength {
        stop := true;
      }
      if k >= v.nChars {
        return Failure(IndexOutOfRange(k));
      }
      target := k;
      states := next;
      steps := steps + 1;
    }
    return Success(StripNewlines(decoded));
  }

  /** Every symbol of the output vocabulary is a non-empty string. */
  ghost predicate NonEmptySymbols(v: Vocab)
  {
    forall i :: i in v.index2char ==> |v.index2char[i]| > 0
  }

  /**
   * With non-empty symbols the text grows every step, so the loop ends
   * within max_length + 1 - |sentence| steps: that budget never runs out.
   */
  lemma {:induction false} GreedyEnds<S>(v: Vocab, decoder: (nat, S) -> (seq<int>, S), index: nat, state: S, sentence: string, fuel: nat)
    requires NonEmptySymbols(v)
    requires fuel > 0 && |sentence| + fuel > v.maxLength
    ensures Greedy(v, decoder, index, state, sentence, fuel) != Failure(OutOfFuel)
    decreases fuel
  {
    var (scores, next) := decoder(index, state);
    if |scores| > 0 {
      var k := ArgMax(scores);
      if k in v.index2char && k < v.nChars {
        var sentence' := sentence + v.index2char[k];
        assert |v.index2char[k]| > 0;
        if !(v.index2char[k] == End || |sentence'| > v.maxLength) {
          GreedyEnds(v, decoder, k, next, sentence', fuel - 1);
        }
      }
    }
  }

  /** A budget larger than needed changes nothing. */
  lemma {:induction false} GreedyFuel<S>(v: Vocab, decoder: (nat, S) -> (seq<int>, S), index: nat, state: S, sentence: string, fuel: nat, more: nat)
    requires Greedy(v, decoder, index, state, sentence, fuel) != Failure(OutOfFuel)
    requires fuel <= more
    ensures Greedy(v, decoder, index, state, sentence, more) == Greedy(v, decoder, index, state, sentence, fuel)
    decreases fuel
  {
    if fuel > 0 {
      var (scores, next) := decoder(index, state);
      if |scores| > 0 {
        var k := ArgMax(scores);
        if k in v.index2char && k < v.nChars {
          var sentence' := sentence + v.index2char[k];
          if !(v.index2char[k] == End || |sentence'| > v.maxLength) {
            GreedyFuel(v, decoder, k, next, sentence', fuel - 1, more - 1);
          }
        }
      }
    }
  }

  /**
   * With non-empty symbols, max_length + 1 steps always suffice, and any
   * larger budget gives the same outcome: the budget is not observable.
   */
  lemma DecodeBudget<X, S>(input: X, encoder: X -> S, decoder: (nat, S) -> (seq<int>, S), v: Vocab, more: nat)
    requires NonEmptySymbols(v)
    requires v.maxLength + 1 <= more
    ensures Decode(input, encoder, decoder, v, v.maxLength + 1) != Failure(OutOfFuel)
    ensures Decode(input, encoder, decoder, v, more) == Decode(input, encoder, decoder, v, v.maxLength + 1)
  {
    if Start in v.char2index && v.char2index[Start] < v.nChars {
      var state := encoder(input);
      GreedyEnds(v, decoder, v.char2index[Start], state, "", v.maxLength + 1);
      GreedyFuel(v, decoder, v.char2index[Start], state, "", v.maxLength + 1, more);
    }
  }

  /**
   * What the loop returns extends what it was given and meets the stop
   * condition: it is longer than max_length or ends in a newline.
   */
  lemma {:induction false} GreedyStops<S>(v: Vocab, decoder: (nat, S) -> (seq<int>, S), index: nat, state: S, sentence: string, fuel: nat)
    requires Greedy(v, decoder, index, state, sentence, fuel).Success?
    ensures var s := Greedy(v, decoder, index, state, sentence, fuel).value;
      && |sentence| <= |s| && s[..|sentence|] == sentence
      && (|s| > v.maxLength || (|s| > 0 && s[|s| - 1] == '\n'))
    decreases fuel
  {
    var (scores, next) := decoder(index, state);
    var k := ArgMax(scores);
    var sentence' := sentence + v.index2char[k];
    if !(v.index2char[k] == End || |sentence'| > v.maxLength) {
      GreedyStops(v, decoder, k, next, sentence', fuel - 1);
      var s := Greedy(v, decoder, index, state, sentence, fuel).value;
      assert s[..|sentence'|][..|sentence|] == s[..|sentence|];
    } else if v.index2char[k] == End {
      assert sentence'[|sentence'| - 1] == '\n';
    }
  }

  /** Only the end symbol holds a newline; true of every character-level charmap (`CharModeSymbols`). */
  ghost predicate NewlineOnlyInEnd(v: Vocab)
  {
    forall i :: i in v.index2char && v.index2char[i] != End ==> '\n' !in v.index2char[i]
  }

  /**
   * `s` is `sentence`, then text without a newline that keeps it within
   * `maxLength`, then `last`, which is the newline or takes it past `maxLength`.
   */
  ghost predicate FirstStop(s: string, sentence: string, last: string, maxLength: nat)
  {
    && |sentence| + |last| <= |s|
    && s[..|sentence|] == sentence
    && s[|s| - |last|..] == last
    && |s| - |last| <= maxLength
    && '\n' !in s[|sentence|..|s| - |last|]
    && (last == End || |s| > maxLength)
  }

  /** A step that goes on with a symbol other than the newline keeps `FirstStop` one symbol earlier. */
  lemma FirstStopExtend(s: string, sentence: string, sym: string, last: string, maxLength: nat)
    requires FirstStop(s, sentence + sym, last, maxLength)
    requires '\n' !in sym
    ensures FirstStop(s, sentence, last, maxLength)
  {
    var n0 := |s| - |last|;
    assert s[..|sentence + sym|][..|sentence|] == s[..|sentence|];
    assert s[|sentence|..n0] == sym + s[|sentence + sym|..n0] by {
      assert s[..|sentence + sym|] == sentence + sym;
    }
  }

  /**
   * The loop stops at the first chance: the result is the text of the last
   * step that went on plus the symbol of some index, where that text is no
   * longer than max_length and gained no newline, and the last symbol is the
   * newline or takes the text past max_length.
   */
  lemma {:induction false} GreedyFirstStop<S>(v: Vocab, decoder: (nat, S) -> (seq<int>, S), index: nat, state: S, sentence: string, fuel: nat)
    requires NewlineOnlyInEnd(v)
    requires |sentence| <= v.maxLength
    requires Greedy(v, decoder, index, state, sentence, fuel).Success?
    ensures var s := Greedy(v, decoder, index, state, sentence, fuel).value;
      exists k :: k in v.index2char && FirstStop(s, sentence, v.index2char[k], v.maxLength)
    decreases fuel
  {
    var (scores, next) := decoder(index, state);
    var k := ArgMax(scores);
    var sym := v.index2char[k];
    var sentence' := sentence + sym;
    var s := Greedy(v, decoder, index, state, sentence, fuel).value;
    if sym == End || |sentence'| > v.maxLength {
      assert s == sentence' && s[|sentence|..] == sym && s[..|sentence|] == sentence;
      assert FirstStop(s, sentence, v.index2char[k], v.maxLength);
    } else {
      GreedyFirstStop(v, decoder, k, next, sentence', fuel - 1);
      var k' :| k' in v.index2char && FirstStop(s, sentence', v.index2char[k'], v.maxLength);
      FirstStopExtend(s, sentence, sym, v.index2char[k'], v.maxLength);
    }
  }

  /**
   * Every output charmap built without split mode meets the conditions of
   * `DecodeBudget` and `GreedyFirstStop`: its symbols are non-empty, and
   * only the end symbol holds a newline.
   */
  lemma CharModeSymbols(words: seq<string>)
    ensures var v := AddWordsTo(Fresh(), false, words).vocab;
      NonEmptySymbols(v) && NewlineOnlyInEnd(v)
  {
    assert CharSymbols(Fresh());
    AddWordsCharSymbols(Fresh(), words);
    var v := AddWordsTo(Fresh(), false, words).vocab;
    forall i | i in v.index2char
      ensures |v.index2char[i]| > 0
      ensures v.index2char[i] != End ==> '\n' !in v.index2char[i]
    {
      var t := v.index2char[i];
      if t !in Sentinels && '\n' in t {
        assert |t| == 1 && t[0] == '\n';
        assert t == End;
      }
    }
  }

  /**
   * With an empty-string symbol the Python loop need not end: a decoder that
   * always predicts it leaves the text unchanged, so no budget is enough.
   */
  lemma {:induction false} GreedyEmptySymbol<S>(v: Vocab, decoder: (nat, S) -> (seq<int>, S), k: nat, index: nat, state: S, sentence: string, fuel: nat)
    requires k in v.index2char && v.index2char[k] == "" && k < v.nChars
    requires forall i, st :: |decoder(i, st).0| > 0 && ArgMax(decoder(i, st).0) == k
    requires |sentence| <= v.maxLength
    ensures Greedy(v, decoder, index, state, sentence, fuel) == Failure(OutOfFuel)
    decreases fuel
  {
    if fuel > 0 {
      var (scores, next) := decoder(index, state);
      assert ArgMax(scores) == k && sentence + "" == sentence;
      GreedyEmptySymbol(v, decoder, k, k, next, sentence, fuel - 1);
    }
  }

  /**
   * `decode_sequence` with a well-formed charmap holding the empty symbol, as
   * a split-mode charmap fed a double space does, and a decoder that always
   * predicts it, fails for every budget.
   */
  lemma DecodeEmptySymbol<X, S>(input: X, encoder: X -> S, decoder: (nat, S) -> (seq<int>, S), v: Vocab, k: nat, fuel: nat)
    requires WellFormed(v)
    requires k in v.index2char && v.index2char[k] == ""
    requires forall i, st :: |decoder(i, st).0| > 0 && ArgMax(decoder(i, st).0) == k
    ensures Decode(input, encoder, decoder, v, fuel) == Failure(OutOfFuel)
  {
    assert Start in v.char2index && v.char2index[Start] in v.index2char;
    assert k < v.nChars;
    GreedyEmptySymbol(v, decoder, k, v.char2index[Start], encoder(input), "", fuel);
  }

  /** `n` copies of `c`. */
  function Repeat(c: char, n: nat): (r: string)
    ensures |r| == n && forall i :: 0 <= i < n ==> r[i] == c
  {
    seq(n, _ => c)
  }

  /**
   * A decoder whose argmax is always the one-character symbol `c`, not a
   * newline, makes the loop append `c` until the text is max_length + 1
   * characters long.
   */
  lemma {:induction false} GreedyConstant<S>(v: Vocab, decoder: (nat, S) -> (seq<int>, S), c: char, k: nat, index: nat, state: S, n: nat, fuel: nat)
    requires k in v.index2char && v.index2char[k] == [c] && c != '\n' && k < v.nChars
    requires forall i, st :: |decoder(i, st).0| > 0 && ArgMax(decoder(i, st).0) == k
    requires n <= v.maxLength && v.maxLength + 1 - n <= fuel
    ensures Greedy(v, decoder, index, state, Repeat(c, n), fuel) == Success(Repeat(c, v.maxLength + 1))
    decreases v.maxLength - n
  {
    var (scores, next) := decoder(index, state);
    assert ArgMax(scores) == k;
    assert Repeat(c, n) + [c] == Repeat(c, n + 1);
    if n < v.maxLength {
      GreedyConstant(v, decoder, c, k, k, next, n + 1, fuel - 1);
    }
  }

  /**
   * A decoder that always predicts the same non-newline character yields
   * that character max_length + 1 times.
   */
  lemma DecodeConstant<X, S>(input: X, encoder: X -> S, decoder: (nat, S) -> (seq<int>, S), v: Vocab, c: char, k: nat)
    requires WellFormed(v)
    requires k in v.index2char && v.index2char[k] == [c] && c != '\n'
    requires forall i, st :: |decoder(i, st).0| > 0 && ArgMax(decoder(i, st).0) == k
    ensures Decode(input, encoder, decoder, v, v.maxLength + 1) == Success(Repeat(c, v.maxLength + 1))
  {
    assert Start in v.char2index && v.char2index[Start] in v.index2char;
    assert k < v.nChars;
    GreedyConstant(v, decoder, c, k, v.char2index[Start], encoder(input), 0, v.maxLength + 1);
    assert Repeat(c, 0) == "";
    StripWithoutNewlines(Repeat(c, v.maxLength + 1));
  }

  /** If the first prediction is the newline symbol, the result is the empty text. */
  lemma DecodeImmediateEnd<X, S>(input: X, encoder: X -> S, decoder: (nat, S) -> (seq<int>, S), v: Vocab, fuel: nat)
    requires WellFormed(v) && fuel > 0
    requires var scores := decoder(v.char2index[Start], encoder(input)).0;
      |scores| > 0 && ArgMax(scores) == v.char2index[End]
    ensures Decode(input, encoder, decoder, v, fuel) == Success("")
  {
    assert v.char2index[Start] in v.index2char && v.char2index[End] in v.index2char;
    var s := Greedy(v, decoder, v.char2index[Start], encoder(input), "", fuel).value;
    assert s == "\n";
    var i :| NewlinesAround(s, StripNewlines(s), i);
  }
}
