/**
 * The tensor codec of phonorm/utilities.py: building the two vocabularies
 * from word pairs, index lists, the one-hot encoder with its one-step-ahead
 * mode, and the decoder that turns one-hot rows back into text.
 *
 * Tensor cells are the integers 0 and 1 rather than float32. The codec reads
 * a vocabulary through `Vocab`, the value of a charmap's fields.
 */
module Utilities {
  import opened Wrappers
  import opened PyStrings
  import opened Prepare

  /** A word pair `[spelling, pronunciation]`. */
  type Pair = (string, string)

  /** The first component of every pair, in order. */
  function Firsts(pairs: seq<Pair>): (r: seq<string>)
    ensures |r| == |pairs| && forall i :: 0 <= i < |pairs| ==> r[i] == pairs[i].0
  {
    seq(|pairs|, i requires 0 <= i < |pairs| => pairs[i].0)
  }

  /** The second component of every pair, in order. */
  function Seconds(pairs: seq<Pair>): (r: seq<string>)
    ensures |r| == |pairs| && forall i :: 0 <= i < |pairs| ==> r[i] == pairs[i].1
  {
    seq(|pairs|, i requires 0 <= i < |pairs| => pairs[i].1)
  }

  // ---------------------------------------------------------------------------
  // create_mapping

  /**
   * `create_mapping`: a character-level input charmap and an output charmap in
   * the given split mode, fed `pair[0]` and `pair[1]` of every pair in order.
   * `ok` is false where Python raises KeyError; since the input side never
   * raises, that happens exactly when the output side does.
   */
  method CreateMapping(inputName: string, outputName: string, pairs: seq<Pair>, split: bool)
    returns (input: CharMap, output: CharMap, ok: bool)
    ensures fresh(input) && fresh(output)
    ensures input.name == inputName && !input.split && output.name == outputName && output.split == split
    ensures input.Valid() && output.Valid()
    ensures ok <==> AddWordsTo(Fresh(), split, Seconds(pairs)).ok
    ensures ok ==> input.Snapshot() == AddWordsTo(Fresh(), false, Firsts(pairs)).vocab
    ensures ok ==> output.Snapshot() == AddWordsTo(Fresh(), split, Seconds(pairs)).vocab
  {
    input := new CharMap(inputName, false);
    output := new CharMap(outputName, split);
    ok := AddPairs(input, output, pairs);
  }

  /** The loop of `create_mapping`: each pair's spelling to `input`, then its pronunciation to `output`. */
  method AddPairs(input: CharMap, output: CharMap, pairs: seq<Pair>) returns (ok: bool)
    requires input != output && input.Valid() && output.Valid() && !input.split
    modifies input, output
    ensures input.Valid() && output.Valid()
    ensures ok <==> AddWordsTo(old(output.Snapshot()), output.split, Seconds(pairs)).ok
    ensures ok ==> input.Snapshot() == AddWordsTo(old(input.Snapshot()), false, Firsts(pairs)).vocab
    ensures ok ==> output.Snapshot() == AddWordsTo(old(output.Snapshot()), output.split, Seconds(pairs)).vocab
  {
    ghost var inputGoal := AddWordsTo(input.Snapshot(), false, Firsts(pairs));
    ghost var outputGoal := AddWordsTo(output.Snapshot(), output.split, Seconds(pairs));
    assert Firsts(pairs)[0..] == Firsts(pairs) && Seconds(pairs)[0..] == Seconds(pairs);
    for i := 0 to |pairs|
      invariant input.Valid() && output.Valid()
      invariant inputGoal == AddWordsTo(input.Snapshot(), false, Firsts(pairs)[i..])
      invariant outputGoal == AddWordsTo(output.Snapshot(), output.split, Seconds(pairs)[i..])
    {
      CreateMappingStep(input.Snapshot(), output.Snapshot(), output.split, pairs, i);
      var okIn := input.AddWord(pairs[i].0);
      var okOut := output.AddWord(pairs[i].1);
      if !okOut {
        return false;
      }
    }
    assert Firsts(pairs)[|pairs|..] == [] && Seconds(pairs)[|pairs|..] == [];
    ok := true;
  }

  /**
   * One pair of `create_mapping`: the input side registers `pair[0]` and
   * cannot raise, since it is character-level; the output side registers
   * `pair[1]` and goes on only if that did not raise.
   */
  lemma CreateMappingStep(vin: Vocab, vout: Vocab, split: bool, pairs: seq<Pair>, i: nat)
    requires WellFormed(vin) && i < |pairs|
    ensures AddWordTo(vin, false, pairs[i].0).ok
    ensures AddWordsTo(vin, false, Firsts(pairs)[i..]) ==
      AddWordsTo(AddWordTo(vin, false, pairs[i].0).vocab, false, Firsts(pairs)[i + 1..])
    ensures AddWordsTo(vout, split, Seconds(pairs)[i..]) ==
      var a := AddWordTo(vout, split, pairs[i].1);
      if a.ok then AddWordsTo(a.vocab, split, Seconds(pairs)[i + 1..]) else a
  {
    AddWordsStep(vin, false, Firsts(pairs), i);
    AddWordsStep(vout, split, Seconds(pairs), i);
    AddWordChars(vin, pairs[i].0);
  }

  /** Registering the words from `i` on: word `i`, then the rest unless it raised. */
  lemma AddWordsStep(v: Vocab, split: bool, words: seq<string>, i: nat)
    requires i < |words|
    ensures AddWordsTo(v, split, words[i..]) ==
      var a := AddWordTo(v, split, words[i]);
      if a.ok then AddWordsTo(a.vocab, split, words[i + 1..]) else a
  {
    assert words[i..][0] == words[i] && words[i..][1..] == words[i + 1..];
  }

  // ---------------------------------------------------------------------------
  // index_from_word, tensor_from_word, tensor_from_pair

  /** An element of an index list: an index, or the literal text `index_from_word` falls back to. */
  datatype Item = Index(index: nat) | Literal(text: string)

  /** `index_from_word`: each character's index, or the string `"<UNK>"` for an unknown character. */
  function IndexFromWord(v: Vocab, word: string): seq<Item>
  {
    seq(|word|, i requires 0 <= i < |word| =>
      if [word[i]] in v.char2index then Index(v.char2index[[word[i]]]) else Literal(Unk))
  }

  /**
   * `tensor_from_word`: the index list of the word, one item per character:
   * the character's own index where it is known, the text `"<UNK>"` elsewhere.
   */
  function TensorFromWord(v: Vocab, word: string): (r: seq<Item>)
    ensures |r| == |word|
    ensures forall i :: 0 <= i < |word| ==> (r[i].Index? <==> [word[i]] in v.char2index)
    ensures forall i :: 0 <= i < |word| && r[i].Index? ==> v.char2index[[word[i]]] == r[i].index
    ensures forall i :: 0 <= i < |word| && r[i].Literal? ==> r[i].text == Unk
  {
    IndexFromWord(v, word)
  }

  /**
   * Each known character's item reads back through `index2char` to that
   * character, whatever the other characters are: over a word of known
   * characters the index list spells the word.
   */
  lemma IndexFromWordRoundTrip(v: Vocab, word: string)
    requires Inverse(v)
    ensures var r := IndexFromWord(v, word);
      && |r| == |word|
      && (forall i :: 0 <= i < |word| && [word[i]] in v.char2index ==>
            r[i].Index? && r[i].index in v.index2char && v.index2char[r[i].index] == [word[i]])
      && ((forall i :: 0 <= i < |word| ==> [word[i]] in v.char2index) ==>
            forall i :: 0 <= i < |word| ==> r[i].Index? && v.index2char[r[i].index] == [word[i]])
  {
  }

  /**
   * An unknown character becomes the text `"<UNK>"`, never the index of
   * `<UNK>`: the two are different items.
   */
  lemma IndexFromWordUnknown(v: Vocab, word: string, i: nat)
    requires i < |word| && [word[i]] !in v.char2index
    ensures IndexFromWord(v, word)[i] == Literal(Unk)
    ensures Unk in v.char2index ==> IndexFromWord(v, word)[i] != Index(v.char2index[Unk])
  {
  }

  /**
   * `tensor_from_pair`: each side's index list, padded with the index of
   * `<UNK>` up to that side's max_length and never truncated.
   */
  method TensorFromPair(pair: Pair, mappings: (Vocab, Vocab)) returns (inputTensor: seq<Item>, outputTensor: seq<Item>)
    requires Unk in mappings.0.char2index && Unk in mappings.1.char2index
    ensures |inputTensor| == if |pair.0| < mappings.0.maxLength then mappings.0.maxLength else |pair.0|
    ensures |outputTensor| == if |pair.1| < mappings.1.maxLength then mappings.1.maxLength else |pair.1|
    ensures inputTensor[..|pair.0|] == IndexFromWord(mappings.0, pair.0)
    ensures outputTensor[..|pair.1|] == IndexFromWord(mappings.1, pair.1)
    ensures forall i :: |pair.0| <= i < |inputTensor| ==> inputTensor[i] == Index(mappings.0.char2index[Unk])
    ensures forall i :: |pair.1| <= i < |outputTensor| ==> outputTensor[i] == Index(mappings.1.char2index[Unk])
  {
    inputTensor := TensorFromWord(mappings.0, pair.0);
    outputTensor := TensorFromWord(mappings.1, pair.1);
    if |inputTensor| < mappings.0.maxLength {
      inputTensor := inputTensor + seq(mappings.0.maxLength - |inputTensor|, _ => Index(mappings.0.char2index[Unk]));
    }
    if |outputTensor| < mappings.1.maxLength {
      outputTensor := outputTensor + seq(mappings.1.maxLength - |outputTensor|, _ => Index(mappings.1.char2index[Unk]));
    }
  }

  // ---------------------------------------------------------------------------
  // one_hot_encode

  /** Why `one_hot_encode` raises: KeyError for an unknown token, IndexError for a cell outside the array. */
  datatype EncodeError = UnknownSymbol(symbol: string) | OutOfRange(entry: nat, row: nat, column: nat)

  /** The row the token at position `p` is written to: `p`, or `p - 1` one step ahead, where token 0 is skipped. */
  function TargetRow(p: nat, ahead: bool): Option<nat>
  {
    if !ahead then Some(p) else if p == 0 then None else Some(p - 1)
  }

  /** The first fault met writing the tokens of entry `n` from position `p` on. */
  function EntryFault(toks: seq<string>, v: Vocab, ahead: bool, n: nat, p: nat): Option<EncodeError>
    decreases |toks| - p
  {
    if p >= |toks| then None
    else if toks[p] !in v.char2index then Some(UnknownSymbol(toks[p]))
    else
      match TargetRow(p, ahead)
      case None => EntryFault(toks, v, ahead, n, p + 1)
      case Some(row) =>
        if row >= v.maxLength || v.char2index[toks[p]] >= v.nChars then
          Some(OutOfRange(n, row, v.char2index[toks[p]]))
        else
          EntryFault(toks, v, ahead, n, p + 1)
  }

  /** The first fault met encoding the entries from `n` on. */
  function DataFault(data: seq<string>, v: Vocab, ahead: bool, split: bool, n: nat): Option<EncodeError>
    decreases |data| - n
  {
    if n >= |data| then None
    else
      match EntryFault(Tokens(split, data[n]), v, ahead, n, 0)
      case Some(e) => Some(e)
      case None => DataFault(data, v, ahead, split, n + 1)
  }

  /** Entry `n` decides the fault from `n` on when it has one; otherwise the later entries do. */
  lemma DataFaultStep(data: seq<string>, v: Vocab, ahead: bool, split: bool, n: nat)
    requires n < |data|
    ensures EntryFault(Tokens(split, data[n]), v, ahead, n, 0).Some? ==>
      DataFault(data, v, ahead, split, n) == EntryFault(Tokens(split, data[n]), v, ahead, n, 0)
    ensures EntryFault(Tokens(split, data[n]), v, ahead, n, 0).None? ==>
      DataFault(data, v, ahead, split, n) == DataFault(data, v, ahead, split, n + 1)
  {
  }

  /**
   * The value at [row, k] of an entry's slab once the tokens before `done`
   * have been written: 1 where the token written to that row has index k.
   */
  function CellUpTo(toks: seq<string>, v: Vocab, ahead: bool, done: nat, row: nat, k: nat): int
  {
    var src := if ahead then row + 1 else row;
    if src < done && src < |toks| && toks[src] in v.char2index && v.char2index[toks[src]] == k then 1 else 0
  }

  /** Writing token `p` sets one cell, the one at its target row and index, and leaves the others. */
  lemma CellUpToStep(toks: seq<string>, v: Vocab, ahead: bool, p: nat)
    requires p < |toks| && toks[p] in v.char2index
    ensures forall row: nat, k: nat ::
              CellUpTo(toks, v, ahead, p + 1, row, k) ==
                if TargetRow(p, ahead) == Some(row) && v.char2index[toks[p]] == k then 1
                else CellUpTo(toks, v, ahead, p, row, k)
  {
    forall row: nat, k: nat
      ensures CellUpTo(toks, v, ahead, p + 1, row, k) ==
                if TargetRow(p, ahead) == Some(row) && v.char2index[toks[p]] == k then 1
                else CellUpTo(toks, v, ahead, p, row, k)
    {
    }
    assert forall row: nat, k: nat ::
             CellUpTo(toks, v, ahead, p + 1, row, k) ==
               if TargetRow(p, ahead) == Some(row) && v.char2index[toks[p]] == k then 1
               else CellUpTo(toks, v, ahead, p, row, k);
  }

  /** The value at [row, k] of an entry's slab when encoding is complete. */
  function Cell(toks: seq<string>, v: Vocab, ahead: bool, row: nat, k: nat): int
  {
    CellUpTo(toks, v, ahead, |toks|, row, k)
  }

  /**
   * `one_hot_encode`: an all-zero (N, max_length, n_chars) array in which
   * token p of entry n sets [n, p, index] (one step ahead: [n, p-1, index],
   * token 0 nowhere). Tokens are the characters, or the `split(" ")` pieces
   * in split mode. Fails with the first fault in the order Python meets it.
   */
  method OneHotEncode(data: seq<string>, v: Vocab, ahead: bool, split: bool) returns (r: Result<array3<int>, EncodeError>)
    ensures r.Failure? <==> DataFault(data, v, ahead, split, 0).Some?
    ensures r.Failure? ==> r.error == DataFault(data, v, ahead, split, 0).value
    ensures r.Success? ==>
      && fresh(r.value)
      && r.value.Length0 == |data| && r.value.Length1 == v.maxLength && r.value.Length2 == v.nChars
      && forall n, p, k :: 0 <= n < |data| && 0 <= p < v.maxLength && 0 <= k < v.nChars ==>
           r.value[n, p, k] == Cell(Tokens(split, data[n]), v, ahead, p, k)
  {
    var out := new int[|data|, v.maxLength, v.nChars]((_, _, _) => 0);
    for n := 0 to |data|
      invariant DataFault(data, v, ahead, split, 0) == DataFault(data, v, ahead, split, n)
      invariant forall n', p, k :: 0 <= n' < |data| && 0 <= p < v.maxLength && 0 <= k < v.nChars ==>
        out[n', p, k] == if n' < n then Cell(Tokens(split, data[n']), v, ahead, p, k) else 0
    {
      DataFaultStep(data, v, ahead, split, n);
      var fault := EncodeEntry(out, Tokens(split, data[n]), v, ahead, n);
      if fault.Some? {
        return Failure(fault.value);
      }
    }
    return Success(out);
  }

  /**
   * The inner loop of `one_hot_encode`: writes the tokens of entry `n` into
   * its all-zero slab of `out` and stops at the first fault.
   */
  method EncodeEntry(out: array3<int>, toks: seq<string>, v: Vocab, ahead: bool, n: nat) returns (fault: Option<EncodeError>)
    requires n < out.Length0 && out.Length1 == v.maxLength && out.Length2 == v.nChars
    requires forall q, k :: 0 <= q < v.maxLength && 0 <= k < v.nChars ==> out[n, q, k] == 0
    modifies out
    ensures fault == EntryFault(toks, v, ahead, n, 0)
    ensures fault.None? ==>
      forall q, k :: 0 <= q < v.maxLength && 0 <= k < v.nChars ==> out[n, q, k] == Cell(toks, v, ahead, q, k)
    ensures forall n', q, k :: 0 <= n' < out.Length0 && n' != n && 0 <= q < v.maxLength && 0 <= k < v.nChars ==>
      out[n', q, k] == old(out[n', q, k])
  {
    for p := 0 to |toks|
      invariant EntryFault(toks, v, ahead, n, 0) == EntryFault(toks, v, ahead, n, p)
      invariant forall q, k :: 0 <= q < v.maxLength && 0 <= k < v.nChars ==> out[n, q, k] == CellUpTo(toks, v, ahead, p, q, k)
      invariant forall n', q, k :: 0 <= n' < out.Length0 && n' != n && 0 <= q < v.maxLength && 0 <= k < v.nChars ==>
        out[n', q, k] == old(out[n', q, k])
    {
      if toks[p] !in v.char2index {
        return Some(UnknownSymbol(toks[p]));
      }
      var k := v.char2index[toks[p]];
      CellUpToStep(toks, v, ahead, p);
      // One step ahead, token p goes to row p - 1 and token 0 is skipped.
      var target := TargetRow(p, ahead);
      if target.Some? {
        var row := target.value;
        if row >= v.maxLength || k >= v.nChars {
          return Some(OutOfRange(n, row, k));
        }
        out[n, row, k] := 1;
      }
    }
    return None;
  }

  /** The slab `one_hot_encode` writes for one entry, as a sequence of rows. */
  function EncodedRows(toks: seq<string>, v: Vocab, ahead: bool): (rows: seq<seq<int>>)
    ensures |rows| == v.maxLength
    ensures forall p :: 0 <= p < |rows| ==> |rows[p]| == v.nChars
  {
    seq(v.maxLength, p requires 0 <= p < v.maxLength =>
      seq(v.nChars, k requires 0 <= k < v.nChars => Cell(toks, v, ahead, p, k)))
  }

  /** Encoding succeeds exactly when every token is known and fits in the rows and columns. */
  lemma {:induction false} EntryFaultNone(toks: seq<string>, v: Vocab, ahead: bool, n: nat, p: nat)
    requires p <= |toks|
    ensures EntryFault(toks, v, ahead, n, p).None? <==>
      forall q :: p <= q < |toks| ==>
        && toks[q] in v.char2index
        && (TargetRow(q, ahead).Some? ==>
              TargetRow(q, ahead).value < v.maxLength && v.char2index[toks[q]] < v.nChars)
    decreases |toks| - p
  {
    if p < |toks| {
      EntryFaultNone(toks, v, ahead, n, p + 1);
    }
  }

  // ---------------------------------------------------------------------------
  // decode_position, decode_from_ohe

  /** `np.sum(row)`. */
  function Sum(row: seq<int>): int
  {
    if row == [] then 0 else row[0] + Sum(row[1..])
  }

  /** `np.argmax(row)`: the first index holding the largest value. */
  function ArgMax(row: seq<int>): (k: nat)
    requires |row| > 0
    ensures k < |row|
    ensures forall j :: 0 <= j < |row| ==> row[j] <= row[k]
    ensures forall j :: 0 <= j < k ==> row[j] < row[k]
  {
    if |row| == 1 then 0
    else
      var k := ArgMax(row[..|row| - 1]);
      if row[|row| - 1] > row[k] then |row| - 1 else k
  }

  /**
   * `decode_position`: the symbol at an index, `None` where Python raises
   * KeyError; on a well-formed charmap it is the symbol whose index this is.
   */
  function DecodePosition(position: nat, v: Vocab): (r: Option<string>)
    ensures r.Some? <==> position in v.index2char
    ensures Inverse(v) && r.Some? ==> r.value in v.char2index && v.char2index[r.value] == position
  {
    if position in v.index2char then Some(v.index2char[position]) else None
  }

  /**
   * The symbols `decode_from_ohe` appends for `rows`: rows whose sum is not
   * positive are skipped, every other row gives the symbol of its argmax;
   * `Failure(i)` when index i has no symbol.
   */
  function DecodedSymbols(rows: seq<seq<int>>, v: Vocab): Result<seq<string>, nat>
    decreases |rows|
  {
    if rows == [] then Success([])
    else if Sum(rows[0]) <= 0 then DecodedSymbols(rows[1..], v)
    else
      var k := ArgMax(rows[0]);
      match DecodePosition(k, v)
      case None => Failure(k)
      case Some(s) =>
        match DecodedSymbols(rows[1..], v)
        case Success(rest) => Success([s] + rest)
        case Failure(e) => Failure(e)
  }

  /** The symbols from row `i` on: row `i`'s symbol, if any, then the rest. */
  lemma DecodedSymbolsStep(rows: seq<seq<int>>, v: Vocab, i: nat)
    requires i < |rows|
    ensures DecodedSymbols(rows[i..], v) ==
      if Sum(rows[i]) <= 0 then DecodedSymbols(rows[i + 1..], v)
      else
        match DecodePosition(ArgMax(rows[i]), v)
        case None => Failure(ArgMax(rows[i]))
        case Some(s) =>
          match DecodedSymbols(rows[i + 1..], v)
          case Success(rest) => Success([s] + rest)
          case Failure(e) => Failure(e)
  {
    assert rows[i..][0] == rows[i] && rows[i..][1..] == rows[i + 1..];
  }

  /** `decode_from_ohe`: the text of one sample, or the index that has no symbol. */
  method DecodeFromOhe(sample: seq<seq<int>>, v: Vocab) returns (r: Result<string, nat>)
    ensures r == match DecodedSymbols(sample, v)
                 case Success(ss) => Success(Concat(ss))
                 case Failure(k) => Failure(k)
  {
    var decoded: seq<string> := [];
    assert sample[0..] == sample;
    if DecodedSymbols(sample, v).Success? {
      assert decoded + DecodedSymbols(sample, v).value == DecodedSymbols(sample, v).value;
    }
    for i := 0 to |sample|
      invariant DecodedSymbols(sample, v) ==
        match DecodedSymbols(sample[i..], v)
        case Success(rest) => Success(decoded + rest)
        case Failure(k) => Failure(k)
    {
      DecodedSymbolsStep(sample, v, i);
      if Sum(sample[i]) > 0 {
        var k := ArgMax(sample[i]);
        var s := DecodePosition(k, v);
        if s.None? {
          return Failure(k);
        }
        if DecodedSymbols(sample[i + 1..], v).Success? {
          var rest := DecodedSymbols(sample[i + 1..], v).value;
          assert decoded + [s.value] + rest == decoded + ([s.value] + rest);
        }
        decoded := decoded + [s.value];
      }
    }
    assert sample[|sample|..] == [] && decoded + [] == decoded;
    return Success(Concat(decoded));
  }

  // ---------------------------------------------------------------------------
  // Round trips

  /** A row that is 1 at `k0` and 0 elsewhere sums to 1 and has its argmax at `k0`. */
  lemma {:induction false} OneHotRow(row: seq<int>, k0: nat)
    requires k0 < |row|
    requires forall k :: 0 <= k < |row| ==> row[k] == if k == k0 then 1 else 0
    ensures Sum(row) == 1 && ArgMax(row) == k0
  {
    SumOneHot(row, k0);
    assert row[k0] <= row[ArgMax(row)];
  }

  lemma {:induction false} SumOneHot(row: seq<int>, k0: int)
    requires forall k :: 0 <= k < |row| ==> row[k] == if k == k0 then 1 else 0
    ensures Sum(row) == if 0 <= k0 < |row| then 1 else 0
    decreases |row|
  {
    if row != [] {
      SumOneHot(row[1..], k0 - 1);
    }
  }

  /**
   * Each row of an encoded slab is the one-hot code of the token written to
   * it, or all zero where no token is written (past the last token, and the
   * last token's row one step ahead).
   */
  lemma EncodedRowShape(toks: seq<string>, v: Vocab, ahead: bool, p: nat)
    requires WellFormed(v)
    requires forall t :: t in toks ==> t in v.char2index
    requires p < v.maxLength
    ensures var src := if ahead then p + 1 else p;
      var row := EncodedRows(toks, v, ahead)[p];
      && (src < |toks| ==> Sum(row) == 1 && ArgMax(row) == v.char2index[toks[src]])
      && (src >= |toks| ==> Sum(row) == 0 && forall k :: 0 <= k < |row| ==> row[k] == 0)
  {
    var src := if ahead then p + 1 else p;
    var row := EncodedRows(toks, v, ahead)[p];
    if src < |toks| {
      var k0 := v.char2index[toks[src]];
      assert k0 in v.index2char;
      OneHotRow(row, k0);
    } else {
      SumOneHot(row, -1);
    }
  }

  /** Decoding the rows from `i` on gives the tokens written to them, in order. */
  lemma {:induction false} DecodeSuffix(toks: seq<string>, v: Vocab, ahead: bool, i: nat)
    requires WellFormed(v)
    requires forall t :: t in toks ==> t in v.char2index
    requires |toks| <= v.maxLength + (if ahead then 1 else 0)
    requires i <= v.maxLength
    ensures var d := if ahead then 1 else 0;
      DecodedSymbols(EncodedRows(toks, v, ahead)[i..], v) == Success(toks[if i + d < |toks| then i + d else |toks|..])
    decreases v.maxLength - i
  {
    var rows := EncodedRows(toks, v, ahead);
    var d := if ahead then 1 else 0;
    if i < v.maxLength {
      DecodedSymbolsStep(rows, v, i);
      DecodeSuffix(toks, v, ahead, i + 1);
      EncodedRowShape(toks, v, ahead, i);
      if i + d < |toks| {
        var k0 := v.char2index[toks[i + d]];
        assert v.index2char[k0] == toks[i + d];
        assert DecodePosition(k0, v) == Some(toks[i + d]);
        assert toks[i + d..] == [toks[i + d]] + toks[i + d + 1..];
      }
    } else {
      assert rows[i..] == [] && toks[|toks|..] == [];
    }
  }

  /**
   * Round trip over tokens: decoding the encoding of known tokens that fit
   * gives the tokens back; one step ahead it gives them without the first.
   */
  lemma EncodeDecodeTokens(toks: seq<string>, v: Vocab)
    requires WellFormed(v)
    requires forall t :: t in toks ==> t in v.char2index
    requires |toks| <= v.maxLength
    ensures DecodedSymbols(EncodedRows(toks, v, false), v) == Success(toks)
    ensures DecodedSymbols(EncodedRows(toks, v, true), v) == Success(if toks == [] then [] else toks[1..])
  {
    DecodeSuffix(toks, v, false, 0);
    DecodeSuffix(toks, v, true, 0);
    assert EncodedRows(toks, v, false)[0..] == EncodedRows(toks, v, false);
    assert EncodedRows(toks, v, true)[0..] == EncodedRows(toks, v, true);
  }

  /**
   * Round trip of a word in character mode: decoding its encoding gives the
   * word, decoding its one-step-ahead encoding gives the word without its
   * first character.
   */
  lemma EncodeDecodeWord(word: string, v: Vocab)
    requires WellFormed(v)
    requires forall i :: 0 <= i < |word| ==> [word[i]] in v.char2index
    requires |word| <= v.maxLength
    ensures DecodedSymbols(EncodedRows(Tokens(false, word), v, false), v) == Success(Chars(word))
    ensures Concat(Chars(word)) == word
    ensures DecodedSymbols(EncodedRows(Tokens(false, word), v, true), v) == Success(Chars(if word == [] then [] else word[1..]))
    ensures word != [] ==> Concat(Chars(word[1..])) == word[1..]
  {
    var toks := Chars(word);
    EncodeDecodeTokens(toks, v);
    ConcatChars(word);
    if word != [] {
      assert toks[1..] == Chars(word[1..]);
      ConcatChars(word[1..]);
    }
  }

  /** Squeezing "a  b" drops both spaces. */
  lemma SqueezeTwoSpaces()
    ensures Squeeze("a  b") == "ab"
  {
    assert Squeeze("b") == "b";
    assert Squeeze(" b") == "b" && "a  b"[1..] == "  b";
    assert Squeeze("  b") == "b";
  }

  /** "a  b" has two non-whitespace characters but three `split(" ")` pieces, the middle one empty. */
  lemma SplitTwoSpaces()
    ensures Squeeze("a  b") == "ab"
    ensures SplitSpace("a  b") == ["a", "", "b"]
  {
    SqueezeTwoSpaces();
    assert SplitSpace("b") == ["b"];
    assert SplitSpace(" b") == ["", "b"];
    assert SplitSpace("  b") == ["", "", "b"];
    assert "a  b"[1..] == "  b" && ['a'] + "" == "a" && ["", "", "b"][1..] == ["", "b"];
  }

  /** The pieces "a", "" and "b" added in turn to a fresh vocabulary get indices 4 to 6. */
  lemma TwoSpacesPieces(n: nat) returns (v: Vocab)
    ensures AddSymbolsTo(Fresh().(maxLength := n), ["a", "", "b"]) == Added(v, true)
    ensures v.maxLength == n && v.nChars == 7
    ensures "a" in v.char2index && "" in v.char2index && "b" in v.char2index
    ensures v.char2index["a"] == 4 && v.char2index[""] == 5 && v.char2index["b"] == 6
  {
    var v0 := Fresh().(maxLength := n);
    assert v0.nChars == 4 && v0.char2index.Keys == Sentinels && "a" !in Sentinels;
    var v1 := AddCharTo(v0, "a").value;
    assert v1.nChars == 5 && v1.char2index.Keys == Sentinels + {"a"} && v1.char2index["a"] == 4;
    assert "" !in Sentinels + {"a"};
    var v2 := AddCharTo(v1, "").value;
    assert v2.nChars == 6 && v2.char2index.Keys == Sentinels + {"a", ""};
    assert v2.char2index["a"] == 4 && v2.char2index[""] == 5;
    assert "b" !in Sentinels + {"a", ""};
    v := AddCharTo(v2, "b").value;
    assert AddSymbolsTo(v, []) == Added(v, true);
    assert AddSymbolsTo(v2, ["b"]) == Added(v, true);
    assert AddSymbolsTo(v1, ["", "b"]) == Added(v, true);
  }

  /** Registering "a  b" in split mode: max_length 2, and the pieces "a", "" and "b" at indices 4 to 6. */
  lemma RegisterTwoSpaces() returns (v: Vocab)
    ensures AddWordTo(Fresh(), true, "a  b") == Added(v, true)
    ensures v.maxLength == 2 && v.nChars == 7
    ensures "a" in v.char2index && "" in v.char2index && "b" in v.char2index
    ensures v.char2index["a"] == 4 && v.char2index[""] == 5 && v.char2index["b"] == 6
  {
    SplitTwoSpaces();
    v := TwoSpacesPieces(2);
    assert TokenLength(true, "a  b") == 2 && Tokens(true, "a  b") == ["a", "", "b"];
  }

  /**
   * In split mode max_length counts characters while the encoder counts
   * `split(" ")` pieces: "a  b" registers max_length 2 but has three pieces,
   * so encoding it with its own vocabulary raises IndexError at row 2.
   */
  lemma SplitModeOverflow()
    ensures var v := AddWordTo(Fresh(), true, "a  b").vocab;
      && v.maxLength == 2
      && DataFault(["a  b"], v, false, true, 0) == Some(OutOfRange(0, 2, 6))
  {
    SplitTwoSpaces();
    var v := RegisterTwoSpaces();
    var toks := ["a", "", "b"];
    assert EntryFault(toks, v, false, 0, 2) == Some(OutOfRange(0, 2, 6));
    assert EntryFault(toks, v, false, 0, 1) == Some(OutOfRange(0, 2, 6));
    assert EntryFault(toks, v, false, 0, 0) == Some(OutOfRange(0, 2, 6));
    assert Tokens(true, ["a  b"][0]) == toks;
  }
}
