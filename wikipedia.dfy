/**
 * The two record-shaping functions of preprocessing/extract_wikipedia_data.py:
 * `flatten_word_list`, which unnests one wikt2pron entry into
 * word-pronunciation records, and `preprocess_data`, which drops the
 * "not found" entries, flattens the rest and checks that the requested
 * language occurs.
 */
module ExtractWikipedia {
  import opened Wrappers
  import opened PyStrings
  import opened Sequences

  /** One pronunciation of a wikt2pron entry: its language, IPA and X-SAMPA strings. */
  datatype Pronunciation = Pronunciation(lang: string, ipa: string, xsampa: string)

  /** The `pronunciation` field: a message string when nothing was found, else a list. */
  datatype PronunciationField = Message(text: string) | Found(items: seq<Pronunciation>)

  /** One element of the wikt2pron output. */
  datatype Entry = Entry(id: int, title: string, pronunciation: PronunciationField)

  /** One flattened word-pronunciation record (`_id`, `word`, `lang`, `IPA`, `X_SAMPA`). */
  datatype Record = Record(id: int, word: string, lang: string, ipa: string, xsampa: string)

  /** The exceptions `flatten_word_list` raises when handed a message string. */
  datatype FlattenError = TypeError | IndexError

  /** The record for pronunciation `p` of entry `e`: lower-cased title, X-SAMPA wrapped in tab and newline. */
  function MakeRecord(e: Entry, p: Pronunciation): Record
  {
    Record(e.id, Lower(e.title), p.lang, p.ipa, "\t" + p.xsampa + "\n")
  }

  /**
   * The value of `flatten_word_list(e, one)`. A list gives one record for its
   * first pronunciation when it has exactly one or `one` is set, else one
   * record per pronunciation. A message string is indexed like a list:
   * indexing an empty one raises IndexError, a character indexed by "lang"
   * raises TypeError, and looping over an empty one gives no records.
   */
  function Flattened(e: Entry, one: bool): (r: Result<seq<Record>, FlattenError>)
    ensures e.pronunciation.Found? && r.Success? ==>
      var items := e.pronunciation.items;
      && |r.value| == (if |items| == 1 || one then 1 else |items|)
      && forall k :: 0 <= k < |r.value| ==> k < |items| && r.value[k] == MakeRecord(e, items[k])
    ensures e.pronunciation.Found? ==> (r.Failure? <==> one && e.pronunciation.items == [])
    ensures e.pronunciation.Message? ==> (r.Success? <==> e.pronunciation.text == [] && !one)
    ensures r.Success? && e.pronunciation.Message? ==> r.value == []
  {
    match e.pronunciation
    case Message(text) =>
      if |text| == 1 || one then
        (if |text| == 0 then Failure(IndexError) else Failure(TypeError))
      else if |text| == 0 then Success([])
      else Failure(TypeError)
    case Found(items) =>
      if |items| == 1 || one then
        (if |items| == 0 then Failure(IndexError) else Success([MakeRecord(e, items[0])]))
      else
        Success(seq(|items|, k requires 0 <= k < |items| => MakeRecord(e, items[k])))
  }

  /** `flatten_word_list`: the multi-pronunciation branch fills a preallocated list in a loop. */
  method FlattenWordList(e: Entry, one: bool) returns (r: Result<seq<Record>, FlattenError>)
    ensures r == Flattened(e, one)
  {
    match e.pronunciation
    case Message(text) =>
      if |text| == 1 || one {
        return if |text| == 0 then Failure(IndexError) else Failure(TypeError);
      }
      if |text| > 0 {
        return Failure(TypeError);
      }
      return Success([]);
    case Found(items) =>
      if |items| == 1 || one {
        if |items| == 0 {
          return Failure(IndexError);
        }
        return Success([MakeRecord(e, items[0])]);
      }
      var res := new Record[|items|];
      for k := 0 to |items|
        invariant forall j :: 0 <= j < k ==> res[j] == MakeRecord(e, items[j])
      {
        res[k] := MakeRecord(e, items[k]);
      }
      assert res[..] == Flattened(e, one).value;
      return Success(res[..]);
  }

  /** The entries whose pronunciation is a list, in order. */
  function KeptEntries(data: seq<Entry>): (r: seq<Entry>)
    ensures |r| <= |data|
    ensures forall e :: e in r <==> e in data && e.pronunciation.Found?
    ensures (forall e :: e in data ==> e.pronunciation.Message?) ==> r == []
    ensures forall e :: multiset(r)[e] == if e.pronunciation.Found? then multiset(data)[e] else 0
    ensures Subsequence(r, data)
  {
    if data == [] then []
    else
      var rest := KeptEntries(data[1..]);
      KeptEntriesStep(data, rest);
      if data[0].pronunciation.Found? then [data[0]] + rest else rest
  }

  /** One step of `KeptEntries`: the head is kept or dropped, and counts, order and membership follow. */
  lemma KeptEntriesStep(data: seq<Entry>, rest: seq<Entry>)
    requires data != []
    requires forall e :: e in rest <==> e in data[1..] && e.pronunciation.Found?
    requires forall e :: multiset(rest)[e] == if e.pronunciation.Found? then multiset(data[1..])[e] else 0
    requires Subsequence(rest, data[1..])
    ensures var r := if data[0].pronunciation.Found? then [data[0]] + rest else rest;
      && (forall e :: e in r <==> e in data && e.pronunciation.Found?)
      && (forall e :: multiset(r)[e] == if e.pronunciation.Found? then multiset(data)[e] else 0)
      && Subsequence(r, data)
  {
    assert data == [data[0]] + data[1..];
    assert multiset(data) == multiset{data[0]} + multiset(data[1..]);
    if data[0].pronunciation.Found? {
      assert ([data[0]] + rest)[1..] == rest;
      assert multiset([data[0]] + rest) == multiset{data[0]} + multiset(rest);
    } else {
      assert rest == [] || rest[0] != data[0] by {
        if rest != [] {
          assert rest[0] in rest;
        }
      }
    }
  }

  /** The flattened records of all entries, concatenated in order; the first failure wins. */
  function FlattenAll(entries: seq<Entry>, one: bool): Result<seq<Record>, FlattenError>
  {
    if entries == [] then Success([])
    else
      match Flattened(entries[0], one)
      case Failure(err) => Failure(err)
      case Success(rs) =>
        match FlattenAll(entries[1..], one)
        case Failure(err) => Failure(err)
        case Success(rest) => Success(rs + rest)
  }

  /**
   * Why `preprocess_data` raises. `LanguageNotPresent` is the error the code
   * means to raise; the name it raises, `phonormException`, is defined
   * nowhere in the repository, so Python raises NameError at that point.
   */
  datatype PreprocessError = FlattenFailed(error: FlattenError) | LanguageNotPresent(language: string)

  /**
   * `preprocess_data` without a maximum word length: the records of every
   * list-valued entry in all languages, and the set of their languages;
   * fails when no record has the requested language.
   */
  function PreprocessData(data: seq<Entry>, language: string, one: bool): (r: Result<(seq<Record>, set<string>), PreprocessError>)
    ensures r.Success? ==> exists rec :: rec in r.value.0 && rec.lang == language
    ensures r.Success? ==> forall l :: l in r.value.1 <==> exists rec :: rec in r.value.0 && rec.lang == l
  {
    match FlattenAll(KeptEntries(data), one)
    case Failure(err) => Failure(FlattenFailed(err))
    case Success(res) =>
      var langs := set rec | rec in res :: rec.lang;
      var matching := set rec | rec in res && rec.lang == language;
      if |matching| == 0 then Failure(LanguageNotPresent(language))
      else
        assert exists rec :: rec in matching;
        Success((res, langs))
  }

  /**
   * The flattened records of list-valued entries: every one carries its
   * entry's id and lower-cased title, and X-SAMPA between tab and newline.
   */
  lemma {:induction false} FlattenAllRecords(entries: seq<Entry>, one: bool)
    requires forall e :: e in entries ==> e.pronunciation.Found?
    requires FlattenAll(entries, one).Success?
    ensures forall rec :: rec in FlattenAll(entries, one).value ==>
      && (exists e :: e in entries && rec.id == e.id && rec.word == Lower(e.title))
      && |rec.xsampa| >= 2 && rec.xsampa[0] == '\t' && rec.xsampa[|rec.xsampa| - 1] == '\n'
  {
    if entries != [] {
      FlattenAllRecords(entries[1..], one);
      var rs := Flattened(entries[0], one).value;
      forall rec | rec in rs
        ensures rec.id == entries[0].id && rec.word == Lower(entries[0].title)
        ensures |rec.xsampa| >= 2 && rec.xsampa[0] == '\t' && rec.xsampa[|rec.xsampa| - 1] == '\n'
      {
        var k :| 0 <= k < |rs| && rs[k] == rec;
      }
      forall e | e in entries[1..]
        ensures e in entries
      {
      }
    }
  }

  /**
   * One record per entry: with `one` set and every list non-empty, each
   * entry gives exactly the record of its first pronunciation.
   */
  lemma {:induction false} FlattenAllFirst(entries: seq<Entry>)
    requires forall e :: e in entries ==> e.pronunciation.Found? && e.pronunciation.items != []
    ensures FlattenAll(entries, true).Success?
    ensures var res := FlattenAll(entries, true).value;
      && |res| == |entries|
      && forall i :: 0 <= i < |entries| ==> res[i] == MakeRecord(entries[i], entries[i].pronunciation.items[0])
  {
    if entries != [] {
      assert entries[0] in entries;
      forall e | e in entries[1..]
        ensures e in entries
      {
      }
      FlattenAllFirst(entries[1..]);
    }
  }

  /**
   * `preprocess_data` fails for the language exactly when flattening
   * succeeds but no record has that language.
   */
  lemma PreprocessDataLanguage(data: seq<Entry>, language: string, one: bool)
    ensures PreprocessData(data, language, one) == Failure(LanguageNotPresent(language)) <==>
      && FlattenAll(KeptEntries(data), one).Success?
      && forall rec :: rec in FlattenAll(KeptEntries(data), one).value ==> rec.lang != language
  {
    match FlattenAll(KeptEntries(data), one)
    case Failure(_) =>
    case Success(res) =>
      var matching := set rec | rec in res && rec.lang == language;
      if rec :| rec in res && rec.lang == language {
        assert rec in matching;
      }
  }

  /** On success the records are exactly the flattening of the list-valued entries. */
  lemma PreprocessDataRecords(data: seq<Entry>, language: string, one: bool)
    requires PreprocessData(data, language, one).Success?
    ensures FlattenAll(KeptEntries(data), one) == Success(PreprocessData(data, language, one).value.0)
  {
  }

  /** Data without any list-valued entry cannot contain the language. */
  lemma PreprocessDataNothingFound(data: seq<Entry>, language: string, one: bool)
    requires forall e :: e in data ==> e.pronunciation.Message?
    ensures PreprocessData(data, language, one) == Failure(LanguageNotPresent(language))
  {
  }
}
