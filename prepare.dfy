/**
 * The character vocabulary `charmap` of phonorm/prepare.py: a two-way map
 * between symbols and indices with four reserved entries, per-symbol counts
 * and the length of the longest word registered so far.
 *
 * The class `CharMap` changes its fields in place, as the Python object does;
 * each of its methods is proved against a function on `Vocab`, the value of
 * those fields, and the lemmas below are stated about those functions.
 */
module Prepare {
  import opened Wrappers
  import opened PyStrings

  const Pad: string := "<PAD>"
  const Unk: string := "<UNK>"
  const Start: string := "\t"
  const End: string := "\n"

  /** The four symbols every vocabulary starts with; none of them is ever counted. */
  const Sentinels: set<string> := {Pad, Unk, Start, End}

  /** The fields of a charmap that `addWord` and `addChar` change. */
  datatype Vocab = Vocab(
    char2index: map<string, nat>,
    index2char: map<nat, string>,
    char2count: map<string, nat>,
    nChars: nat,
    maxLength: nat)

  /** What registering a symbol or a word leaves behind: the new state, and false when Python raised. */
  datatype Added = Added(vocab: Vocab, ok: bool)

  /** The state set up by `charmap.__init__`. */
  function Fresh(): Vocab
  {
    Vocab(map[Pad := 0, Unk := 1, Start := 2, End := 3],
          map[0 := Pad, 1 := Unk, 2 := Start, 3 := End],
          map[], 4, 0)
  }

  /** The sentinels keep the indices `__init__` gave them. */
  ghost predicate Reserved(v: Vocab)
  {
    && Pad in v.char2index && v.char2index[Pad] == 0
    && Unk in v.char2index && v.char2index[Unk] == 1
    && Start in v.char2index && v.char2index[Start] == 2
    && End in v.char2index && v.char2index[End] == 3
  }

  /** The two maps are inverse to each other. */
  ghost predicate Inverse(v: Vocab)
  {
    && (forall s :: s in v.char2index ==> v.char2index[s] in v.index2char && v.index2char[v.char2index[s]] == s)
    && (forall i :: i in v.index2char ==> v.index2char[i] in v.char2index && v.char2index[v.index2char[i]] == i)
  }

  /** The indices in use are exactly 0 .. nChars-1. */
  ghost predicate Dense(v: Vocab)
  {
    forall i: nat :: i in v.index2char <==> i < v.nChars
  }

  /** Exactly the non-sentinel symbols have a count, and it is at least one. */
  ghost predicate Counted(v: Vocab)
  {
    && v.char2count.Keys == v.char2index.Keys - Sentinels
    && (forall s :: s in v.char2count ==> v.char2count[s] >= 1)
  }

  /**
   * The invariant of a charmap: the two maps are inverse to each other, the
   * indices in use are exactly 0 .. nChars-1, nChars is the number of symbols,
   * the sentinels are in place, and every other symbol has a count of at least one.
   */
  ghost predicate WellFormed(v: Vocab)
  {
    && Inverse(v)
    && Dense(v)
    && |v.char2index| == v.nChars
    && Reserved(v)
    && Counted(v)
  }

  /** `addChar(sym)`; `None` where Python raises KeyError. */
  function AddCharTo(v: Vocab, sym: string): Option<Vocab>
  {
    if sym !in v.char2index then
      Some(v.(char2index := v.char2index[sym := v.nChars],
              index2char := v.index2char[v.nChars := sym],
              char2count := v.char2count[sym := 1],
              nChars := v.nChars + 1))
    else if sym == Start || sym == End then
      Some(v)
    else if sym in v.char2count then
      Some(v.(char2count := v.char2count[sym := v.char2count[sym] + 1]))
    else
      None
  }

  /** `addChar` applied to each symbol in turn, stopping at the first that raises. */
  function AddSymbolsTo(v: Vocab, syms: seq<string>): Added
    decreases |syms|
  {
    if syms == [] then Added(v, true)
    else
      match AddCharTo(v, syms[0])
      case None => Added(v, false)
      case Some(v') => AddSymbolsTo(v', syms[1..])
  }

  /** Registering the symbols from `i` on: symbol `i`, then the rest unless it raised. */
  lemma AddSymbolsStep(v: Vocab, syms: seq<string>, i: nat)
    requires i < |syms|
    ensures AddSymbolsTo(v, syms[i..]) ==
      match AddCharTo(v, syms[i])
      case None => Added(v, false)
      case Some(v') => AddSymbolsTo(v', syms[i + 1..])
  {
    assert syms[i..][0] == syms[i] && syms[i..][1..] == syms[i + 1..];
  }

  /** The symbols `addWord` registers: the `split(" ")` pieces in split mode, else the characters. */
  function Tokens(split: bool, word: string): seq<string>
  {
    if split then SplitSpace(word) else Chars(word)
  }

  /** The length `addWord` compares with `max_length`: whitespace-free character count in split mode. */
  function TokenLength(split: bool, word: string): nat
  {
    if split then |Squeeze(word)| else |word|
  }

  /** `addWord(word)`: raise `max_length` first, then register the tokens. */
  function AddWordTo(v: Vocab, split: bool, word: string): Added
  {
    var n := TokenLength(split, word);
    var v1 := if n > v.maxLength then v.(maxLength := n) else v;
    AddSymbolsTo(v1, Tokens(split, word))
  }

  /** `addWord` applied to each word in turn, stopping at the first that raises. */
  function AddWordsTo(v: Vocab, split: bool, words: seq<string>): Added
    decreases |words|
  {
    if words == [] then Added(v, true)
    else
      var a := AddWordTo(v, split, words[0]);
      if !a.ok then a else AddWordsTo(a.vocab, split, words[1..])
  }

  // ---------------------------------------------------------------------------
  // The state after __init__

  /** A fresh charmap maps `<PAD>`, `<UNK>`, tab and newline to 0..3 and back, and is well formed. */
  lemma FreshWellFormed()
    ensures WellFormed(Fresh())
    ensures Fresh().nChars == 4 && Fresh().maxLength == 0 && Fresh().char2count == map[]
    ensures forall i :: i in Fresh().index2char <==> 0 <= i < 4
  {
    var v := Fresh();
    assert Inverse(v);
    assert Dense(v);
    assert |v.char2index| == v.nChars;
    assert Reserved(v);
    assert Counted(v);
  }

  // ---------------------------------------------------------------------------
  // addChar

  /** An unseen symbol gets the next index, enters both maps with count one, and nChars grows by one. */
  lemma AddCharUnseen(v: Vocab, sym: string)
    requires WellFormed(v) && sym !in v.char2index
    ensures AddCharTo(v, sym).Some?
    ensures var v' := AddCharTo(v, sym).value;
      && v'.char2index == v.char2index[sym := v.nChars]
      && v'.index2char == v.index2char[v.nChars := sym]
      && v'.char2count == v.char2count[sym := 1]
      && v'.nChars == v.nChars + 1 == |v'.char2index|
      && v'.maxLength == v.maxLength
  {
  }

  /**
   * A known symbol never moves an index: both maps and nChars stay, only its
   * own count grows by one; tab and newline change nothing at all.
   */
  lemma AddCharKnown(v: Vocab, sym: string)
    requires sym in v.char2index
    requires AddCharTo(v, sym).Some?
    ensures var v' := AddCharTo(v, sym).value;
      && v'.char2index == v.char2index && v'.index2char == v.index2char
      && v'.nChars == v.nChars && v'.maxLength == v.maxLength
      && (sym == Start || sym == End ==> v' == v)
      && (sym != Start && sym != End ==>
            v'.char2count == v.char2count[sym := v.char2count[sym] + 1])
  {
  }

  /** On a well-formed charmap, `addChar` raises exactly for `<PAD>` and `<UNK>`. */
  lemma AddCharFails(v: Vocab, sym: string)
    requires Reserved(v) && Counted(v)
    ensures AddCharTo(v, sym).None? <==> sym == Pad || sym == Unk
  {
    assert Pad in v.char2index && Pad !in v.char2count;
    assert Unk in v.char2index && Unk !in v.char2count;
    if sym in v.char2index && sym !in Sentinels {
      assert sym in v.char2count;
    }
  }

  /** `addChar` keeps the charmap invariant. */
  lemma AddCharPreserves(v: Vocab, sym: string)
    requires WellFormed(v)
    requires AddCharTo(v, sym).Some?
    ensures WellFormed(AddCharTo(v, sym).value)
  {
    if sym !in v.char2index {
      AddCharUnseenPreserves(v, sym);
    } else {
      AddCharKnownPreserves(v, sym);
    }
  }

  lemma AddCharUnseenPreserves(v: Vocab, sym: string)
    requires WellFormed(v) && sym !in v.char2index
    ensures WellFormed(AddCharTo(v, sym).value)
  {
  }

  lemma AddCharKnownPreserves(v: Vocab, sym: string)
    requires WellFormed(v) && sym in v.char2index && AddCharTo(v, sym).Some?
    ensures WellFormed(AddCharTo(v, sym).value)
  {
  }

  /** `addChar` keeps the indices dense and the sentinels and counts in place, whatever the state. */
  lemma AddCharFrame(v: Vocab, sym: string)
    requires AddCharTo(v, sym).Some?
    ensures Dense(v) ==> Dense(AddCharTo(v, sym).value)
    ensures Reserved(v) ==> Reserved(AddCharTo(v, sym).value)
    ensures Reserved(v) && Counted(v) ==> Counted(AddCharTo(v, sym).value)
  {
  }

  // ---------------------------------------------------------------------------
  // Sequences of symbols

  /** Registering symbols keeps the invariant, on success and at the point where it raised. */
  lemma {:induction false} AddSymbolsPreserves(v: Vocab, syms: seq<string>)
    requires WellFormed(v)
    ensures WellFormed(AddSymbolsTo(v, syms).vocab)
    decreases |syms|
  {
    if syms != [] {
      var r := AddCharTo(v, syms[0]);
      if r.Some? {
        AddCharPreserves(v, syms[0]);
        AddSymbolsPreserves(r.value, syms[1..]);
      }
    }
  }

  /**
   * Registering never reassigns an index: every symbol known before keeps its
   * index, nChars never shrinks, and max_length is untouched.
   */
  lemma {:induction false} AddSymbolsStable(v: Vocab, syms: seq<string>)
    requires Dense(v)
    ensures var v' := AddSymbolsTo(v, syms).vocab;
      && (forall s :: s in v.char2index ==> s in v'.char2index && v'.char2index[s] == v.char2index[s])
      && (forall i :: i in v.index2char ==> i in v'.index2char && v'.index2char[i] == v.index2char[i])
      && v.nChars <= v'.nChars
      && v'.maxLength == v.maxLength
    decreases |syms|
  {
    if syms != [] {
      var r := AddCharTo(v, syms[0]);
      if r.Some? {
        AddCharFrame(v, syms[0]);
        AddSymbolsStable(r.value, syms[1..]);
      }
    }
  }

  /** A run of `addChar` calls raises exactly when one of the symbols is `<PAD>` or `<UNK>`. */
  lemma {:induction false} AddSymbolsFails(v: Vocab, syms: seq<string>)
    requires Reserved(v) && Counted(v)
    ensures !AddSymbolsTo(v, syms).ok <==> Pad in syms || Unk in syms
    decreases |syms|
  {
    if syms != [] {
      AddCharFails(v, syms[0]);
      var r := AddCharTo(v, syms[0]);
      assert syms == [syms[0]] + syms[1..];
      if r.Some? {
        AddCharFrame(v, syms[0]);
        AddSymbolsFails(r.value, syms[1..]);
      }
    }
  }

  /** The elements of a non-empty sequence: its head and the elements of its tail. */
  lemma ElementsOfCons(syms: seq<string>)
    requires syms != []
    ensures (set t | t in syms) == {syms[0]} + set t | t in syms[1..]
  {
    assert syms == [syms[0]] + syms[1..];
  }

  /** After a successful run, the symbols in use are the old ones plus those registered. */
  lemma {:induction false} AddSymbolsKeys(v: Vocab, syms: seq<string>)
    requires AddSymbolsTo(v, syms).ok
    ensures AddSymbolsTo(v, syms).vocab.char2index.Keys == v.char2index.Keys + set t | t in syms
    decreases |syms|
  {
    if syms != [] {
      var v' := AddCharTo(v, syms[0]).value;
      AddSymbolsKeys(v', syms[1..]);
      assert v'.char2index.Keys == v.char2index.Keys + {syms[0]};
      ElementsOfCons(syms);
    }
  }

  /** The count of the symbol `s`, zero when it has none. */
  function CountOf(v: Vocab, s: string): nat
  {
    if s in v.char2count then v.char2count[s] else 0
  }

  /** After a successful run, each non-sentinel symbol's count grew by the number of times it was registered. */
  lemma {:induction false} AddSymbolsCounts(v: Vocab, syms: seq<string>, s: string)
    requires Reserved(v) && Counted(v)
    requires AddSymbolsTo(v, syms).ok
    requires s !in Sentinels
    ensures CountOf(AddSymbolsTo(v, syms).vocab, s) == CountOf(v, s) + multiset(syms)[s]
    decreases |syms|
  {
    if syms != [] {
      var v' := AddCharTo(v, syms[0]).value;
      AddCharFrame(v, syms[0]);
      AddSymbolsCounts(v', syms[1..], s);
      assert syms == [syms[0]] + syms[1..];
      assert multiset(syms)[s] == (if syms[0] == s then 1 else 0) + multiset(syms[1..])[s];
      if syms[0] == s && s in v.char2index {
        assert s in v.char2count;
      }
    }
  }

  /** nChars counts the sentinels plus every distinct symbol that has a count. */
  lemma VocabSize(v: Vocab)
    requires WellFormed(v)
    ensures v.nChars == |v.char2count| + 4
  {
    assert Sentinels <= v.char2index.Keys by { assert Reserved(v); }
    assert |Sentinels| == 4;
    assert v.char2count.Keys == v.char2index.Keys - Sentinels;
    assert |v.char2index.Keys - Sentinels| == |v.char2index.Keys| - |Sentinels|;
  }

  // ---------------------------------------------------------------------------
  // addWord

  /** The invariant does not depend on max_length. */
  lemma MaxLengthIrrelevant(v: Vocab, n: nat)
    requires WellFormed(v)
    ensures WellFormed(v.(maxLength := n))
  {
    var v' := v.(maxLength := n);
    assert Inverse(v') && Dense(v') && Reserved(v') && Counted(v');
  }

  /**
   * `addWord` raises max_length to the word's length (the whitespace-free
   * character count in split mode) and never lowers it, whether or not it
   * raises afterwards; known indices stay where they were.
   */
  lemma AddWordMaxLength(v: Vocab, split: bool, word: string)
    requires WellFormed(v)
    ensures var v' := AddWordTo(v, split, word).vocab;
      && v'.maxLength == (if TokenLength(split, word) > v.maxLength then TokenLength(split, word) else v.maxLength)
      && WellFormed(v')
      && (forall s :: s in v.char2index ==> s in v'.char2index && v'.char2index[s] == v.char2index[s])
  {
    var n := TokenLength(split, word);
    var v1 := if n > v.maxLength then v.(maxLength := n) else v;
    AddSymbolsStable(v1, Tokens(split, word));
    AddSymbolsPreserves(v1, Tokens(split, word));
  }

  /** Without split mode `addWord` never raises, and afterwards every character of the word is known. */
  lemma AddWordChars(v: Vocab, word: string)
    requires WellFormed(v)
    ensures AddWordTo(v, false, word).ok
    ensures forall i :: 0 <= i < |word| ==> [word[i]] in AddWordTo(v, false, word).vocab.char2index
  {
    var n := TokenLength(false, word);
    var v1 := if n > v.maxLength then v.(maxLength := n) else v;
    var toks := Chars(word);
    assert Pad !in toks && Unk !in toks;
    AddSymbolsFails(v1, toks);
    AddSymbolsKeys(v1, toks);
    forall i | 0 <= i < |word|
      ensures [word[i]] in AddWordTo(v, false, word).vocab.char2index
    {
      assert toks[i] == [word[i]];
    }
  }

  /** In split mode `addWord` raises exactly when a `split(" ")` piece is `<PAD>` or `<UNK>`. */
  lemma AddWordSplitFails(v: Vocab, word: string)
    requires WellFormed(v)
    ensures !AddWordTo(v, true, word).ok <==> Pad in SplitSpace(word) || Unk in SplitSpace(word)
  {
    var n := TokenLength(true, word);
    var v1 := if n > v.maxLength then v.(maxLength := n) else v;
    AddSymbolsFails(v1, SplitSpace(word));
  }

  /** Registering a list of words keeps the invariant. */
  lemma {:induction false} AddWordsPreserves(v: Vocab, split: bool, words: seq<string>)
    requires WellFormed(v)
    ensures WellFormed(AddWordsTo(v, split, words).vocab)
    decreases |words|
  {
    if words != [] {
      AddWordMaxLength(v, split, words[0]);
      var a := AddWordTo(v, split, words[0]);
      if a.ok {
        AddWordsPreserves(a.vocab, split, words[1..]);
      }
    }
  }

  /**
   * After registering a list of words without error, max_length is the
   * largest of the old max_length and the words' lengths.
   */
  lemma {:induction false} AddWordsMaxLength(v: Vocab, split: bool, words: seq<string>)
    requires WellFormed(v)
    requires AddWordsTo(v, split, words).ok
    ensures var m := AddWordsTo(v, split, words).vocab.maxLength;
      && v.maxLength <= m
      && (forall w :: w in words ==> TokenLength(split, w) <= m)
      && (m == v.maxLength || exists w :: w in words && m == TokenLength(split, w))
    decreases |words|
  {
    if words != [] {
      AddWordMaxLength(v, split, words[0]);
      var a := AddWordTo(v, split, words[0]);
      AddWordsMaxLength(a.vocab, split, words[1..]);
      var m := AddWordsTo(v, split, words).vocab.maxLength;
      assert forall w :: w in words ==> w == words[0] || w in words[1..];
      if m != v.maxLength && m != a.vocab.maxLength {
        var w :| w in words[1..] && m == TokenLength(split, w);
        assert w in words;
      }
    }
  }

  /** Without split mode, registering any list of words succeeds. */
  lemma {:induction false} AddWordsChars(v: Vocab, words: seq<string>)
    requires WellFormed(v)
    ensures AddWordsTo(v, false, words).ok
    decreases |words|
  {
    if words != [] {
      AddWordChars(v, words[0]);
      AddWordMaxLength(v, false, words[0]);
      AddWordsChars(AddWordTo(v, false, words[0]).vocab, words[1..]);
    }
  }

  /** Every symbol is one of the four sentinels or a single character, as in a character-level charmap. */
  ghost predicate CharSymbols(v: Vocab)
  {
    forall i :: i in v.index2char ==> v.index2char[i] in Sentinels || |v.index2char[i]| == 1
  }

  /** Registering one-character symbols keeps every symbol a sentinel or a single character. */
  lemma {:induction false} AddSymbolsCharSymbols(v: Vocab, syms: seq<string>)
    requires CharSymbols(v)
    requires forall t :: t in syms ==> |t| == 1
    ensures CharSymbols(AddSymbolsTo(v, syms).vocab)
    decreases |syms|
  {
    if syms != [] {
      assert syms[0] in syms;
      match AddCharTo(v, syms[0])
      case None =>
      case Some(v') =>
        assert CharSymbols(v');
        assert forall t :: t in syms[1..] ==> t in syms;
        AddSymbolsCharSymbols(v', syms[1..]);
    }
  }

  /**
   * A fresh charmap fed any list of words without split mode holds only the
   * sentinels and single characters.
   */
  lemma {:induction false} AddWordsCharSymbols(v: Vocab, words: seq<string>)
    requires CharSymbols(v)
    ensures CharSymbols(AddWordsTo(v, false, words).vocab)
    decreases |words|
  {
    if words != [] {
      var n := TokenLength(false, words[0]);
      var v1 := if n > v.maxLength then v.(maxLength := n) else v;
      AddSymbolsCharSymbols(v1, Chars(words[0]));
      var a := AddWordTo(v, false, words[0]);
      if a.ok {
        AddWordsCharSymbols(a.vocab, words[1..]);
      }
    }
  }

  /** Registering "cat" in a fresh charmap: indices 4 to 6, count one each, max_length 3. */
  lemma RegisterCat() returns (v: Vocab)
    ensures AddWordTo(Fresh(), false, "cat") == Added(v, true)
    ensures v.nChars == 7 && v.maxLength == 3
    ensures v.char2count == map["c" := 1, "a" := 1, "t" := 1]
    ensures v.char2index.Keys == {Pad, Unk, Start, End, "c", "a", "t"}
  {
    var v1 := Fresh().(maxLength := 3);
    assert Chars("cat") == ["c", "a", "t"];
    var v2 := AddCharTo(v1, "c").value;
    assert v2.char2index.Keys == {Pad, Unk, Start, End, "c"};
    var v3 := AddCharTo(v2, "a").value;
    assert v3.char2index.Keys == {Pad, Unk, Start, End, "c", "a"};
    v := AddCharTo(v3, "t").value;
    assert AddSymbolsTo(v, []) == Added(v, true);
    assert AddSymbolsTo(v3, ["t"]) == Added(v, true);
    assert AddSymbolsTo(v2, ["a", "t"]) == Added(v, true);
    assert AddSymbolsTo(v1, ["c", "a", "t"]) == Added(v, true);
    assert TokenLength(false, "cat") == 3 && Tokens(false, "cat") == ["c", "a", "t"];
  }

  /** Registering "car" after "cat": `c` and `a` are counted again and `r` gets index 7. */
  lemma RegisterCar(v: Vocab) returns (w: Vocab)
    requires v.nChars == 7 && v.maxLength == 3
    requires v.char2count == map["c" := 1, "a" := 1, "t" := 1]
    requires v.char2index.Keys == {Pad, Unk, Start, End, "c", "a", "t"}
    ensures AddWordTo(v, false, "car") == Added(w, true)
    ensures w.nChars == 8 && w.maxLength == 3
    ensures "c" in w.char2count && w.char2count["c"] == 2
    ensures "r" in w.char2index && w.char2index["r"] == 7
  {
    assert Chars("car") == ["c", "a", "r"];
    assert "r" !in v.char2index;
    var v5 := AddCharTo(v, "c").value;
    assert v5.char2count["c"] == 2;
    var v6 := AddCharTo(v5, "a").value;
    w := AddCharTo(v6, "r").value;
    assert AddSymbolsTo(w, []) == Added(w, true);
    assert AddSymbolsTo(v6, ["r"]) == Added(w, true);
    assert AddSymbolsTo(v5, ["a", "r"]) == Added(w, true);
    assert AddSymbolsTo(v, ["c", "a", "r"]) == Added(w, true);
  }

  /** Registering "cat" then "car": eight symbols, max_length 3, and `c` counted twice. */
  lemma CatCar()
    ensures var a := AddWordsTo(Fresh(), false, ["cat", "car"]);
      && a.ok
      && a.vocab.nChars == 8
      && a.vocab.maxLength == 3
      && "c" in a.vocab.char2count && a.vocab.char2count["c"] == 2
      && "r" in a.vocab.char2index && a.vocab.char2index["r"] == 7
  {
    var v := RegisterCat();
    var w := RegisterCar(v);
    assert ["cat", "car"][1..] == ["car"];
    assert ["car"][1..] == [];
    assert AddWordsTo(w, false, []) == Added(w, true);
    assert AddWordsTo(v, false, ["car"]) == Added(w, true);
  }

  // ---------------------------------------------------------------------------
  // The object

  /** `charmap`: name and split mode fixed at construction, the rest updated in place. */
  class CharMap {
    const name: string
    const split: bool
    var char2index: map<string, nat>
    var index2char: map<nat, string>
    var char2count: map<string, nat>
    var nChars: nat
    var maxLength: nat

    /** The current state as a value. */
    function Snapshot(): Vocab
      reads this
    {
      Vocab(char2index, index2char, char2count, nChars, maxLength)
    }

    ghost predicate Valid()
      reads this
    {
      WellFormed(Snapshot())
    }

    constructor (name: string, split: bool)
      ensures this.name == name && this.split == split
      ensures Snapshot() == Fresh() && Valid()
    {
      this.name := name;
      this.split := split;
      char2index := map[Pad := 0, Unk := 1, Start := 2, End := 3];
      index2char := map[0 := Pad, 1 := Unk, 2 := Start, 3 := End];
      char2count := map[];
      nChars := 4;
      maxLength := 0;
      new;
      FreshWellFormed();
    }

    /** `addChar`; `ok` is false where Python raises KeyError, and then nothing has changed. */
    method AddChar(sym: string) returns (ok: bool)
      requires Valid()
      modifies this
      ensures Valid()
      ensures ok == AddCharTo(old(Snapshot()), sym).Some?
      ensures Snapshot() == if ok then AddCharTo(old(Snapshot()), sym).value else old(Snapshot())
    {
      ghost var v := Snapshot();
      if sym !in char2index {
        char2index := char2index[sym := nChars];
        char2count := char2count[sym := 1];
        index2char := index2char[nChars := sym];
        nChars := nChars + 1;
        ok := true;
      } else if sym == Start || sym == End {
        ok := true;
      } else if sym in char2count {
        char2count := char2count[sym := char2count[sym] + 1];
        ok := true;
      } else {
        ok := false;
      }
      if ok {
        AddCharPreserves(v, sym);
      }
    }

    /**
     * `addWord`; `ok` is false where Python raises KeyError, and then the
     * object keeps what was done before the failing symbol.
     */
    method AddWord(word: string) returns (ok: bool)
      requires Valid()
      modifies this
      ensures Valid()
      ensures Added(Snapshot(), ok) == AddWordTo(old(Snapshot()), split, word)
    {
      var n := TokenLength(split, word);
      if n > maxLength {
        maxLength := n;
      }
      var tokens := Tokens(split, word);
      ghost var goal := AddWordTo(old(Snapshot()), split, word);
      MaxLengthIrrelevant(old(Snapshot()), maxLength);
      assert goal == AddSymbolsTo(Snapshot(), tokens[0..]) by {
        assert tokens[0..] == tokens;
      }
      for i := 0 to |tokens|
        invariant Valid()
        invariant goal == AddSymbolsTo(Snapshot(), tokens[i..])
      {
        AddSymbolsStep(Snapshot(), tokens, i);
        ok := AddChar(tokens[i]);
        if !ok {
          return;
        }
      }
      ok := true;
    }
  }
}
