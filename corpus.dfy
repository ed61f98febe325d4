/**
 * The corpus helpers of preprocessing/utils.py: turning records into word
 * pairs, the shuffled train/dev/test split, and the homophone filter that
 * keeps dev and test pronunciations out of the training data.
 */
module PreprocessingUtils {
  import opened Wrappers
  import opened Utilities
  import opened ExtractWikipedia
  import opened Sequences

  // ---------------------------------------------------------------------------
  // to_pairs

  /** `to_pairs`: one `[word, X_SAMPA]` pair per record, in order. */
  function ToPairs(doc: seq<Record>): (r: seq<Pair>)
    ensures |r| == |doc|
    ensures forall i :: 0 <= i < |doc| ==> r[i] == (doc[i].word, doc[i].xsampa)
  {
    seq(|doc|, i requires 0 <= i < |doc| => (doc[i].word, doc[i].xsampa))
  }

  /**
   * The pairs of a preprocessed corpus: each spelling is the lower-cased
   * title of an entry, and each pronunciation is wrapped in the tab start and
   * newline end symbols the output charmap reserves.
   */
  lemma PairsOfCorpus(data: seq<Entry>, language: string, one: bool)
    requires PreprocessData(data, language, one).Success?
    ensures forall p :: p in ToPairs(PreprocessData(data, language, one).value.0) ==>
      && (exists e :: e in data && p.0 == PyStrings.Lower(e.title))
      && |p.1| >= 2 && p.1[0] == '\t' && p.1[|p.1| - 1] == '\n'
  {
    var res := PreprocessData(data, language, one).value.0;
    var kept := KeptEntries(data);
    assert forall e :: e in kept ==> e in data;
    PreprocessDataRecords(data, language, one);
    assert FlattenAll(kept, one) == Success(res);
    FlattenAllRecords(kept, one);
    var pairs := ToPairs(res);
    forall p | p in pairs
      ensures exists e :: e in data && p.0 == PyStrings.Lower(e.title)
      ensures |p.1| >= 2 && p.1[0] == '\t' && p.1[|p.1| - 1] == '\n'
    {
      var i :| 0 <= i < |res| && pairs[i] == p;
      var rec := res[i];
      assert rec in res;
      var e :| e in kept && rec.id == e.id && rec.word == PyStrings.Lower(e.title);
      assert e in data;
    }
  }

  // ---------------------------------------------------------------------------
  // cv_splits

  /** Where Python's slice bound `i` lands in a sequence of length `len`. */
  function SliceBound(i: int, len: nat): (b: nat)
    ensures b <= len
    ensures 0 <= i <= len ==> b == i
  {
    if i < 0 then (if i + len < 0 then 0 else i + len)
    else if i > len then len
    else i
  }

  /** `s[i:j]`: negative bounds count from the end, bounds are clamped, and a reversed range is empty. */
  function PySlice<T>(s: seq<T>, i: int, j: int): seq<T>
  {
    var a := SliceBound(i, |s|);
    var b := SliceBound(j, |s|);
    if a < b then s[a..b] else []
  }

  /** The three slices `cv_splits` takes of the shuffled list. */
  function Splits<T>(s: seq<T>, ndev: int, ntest: int): (seq<T>, seq<T>, seq<T>)
  {
    var nTrain := |s| - ntest - ndev;
    var nDev := |s| - ntest;
    var nTest := |s|;
    (PySlice(s, 0, nTrain), PySlice(s, nTrain, nDev), PySlice(s, nDev, nTest))
  }

  /**
   * With room for both, the splits are consecutive and cover the list:
   * dev has `ndev` elements, test `ntest`, train the rest.
   */
  lemma SplitsPartition<T>(s: seq<T>, ndev: int, ntest: int)
    requires 0 <= ndev && 0 <= ntest && ndev + ntest <= |s|
    ensures var (train, dev, test) := Splits(s, ndev, ntest);
      && |train| == |s| - ndev - ntest && |dev| == ndev && |test| == ntest
      && train + dev + test == s
  {
    var (train, dev, test) := Splits(s, ndev, ntest);
    var a := |s| - ntest - ndev;
    var b := |s| - ntest;
    assert train == s[..a] && dev == s[a..b] && test == s[b..];
    assert s[..a] + s[a..b] + s[b..] == s;
  }

  /**
   * Without room, the slices overlap: five elements with ndev = ntest = 3
   * give a train list of four, an empty dev list, and a test list of three
   * sharing two elements with train.
   */
  lemma SplitsOverlap()
    ensures Splits([0, 1, 2, 3, 4], 3, 3) == ([0, 1, 2, 3], [], [2, 3, 4])
  {
    var s := [0, 1, 2, 3, 4];
    assert SliceBound(-1, 5) == 4 && SliceBound(2, 5) == 2;
    assert s[0..4] == [0, 1, 2, 3] && s[2..5] == [2, 3, 4];
  }

  /**
   * `numpy.random.shuffle` as Fisher-Yates: from the last position down to
   * 1, swap position i with `draws[i]`, a position at most i. The draws stand
   * for the random generator; any permutation can come out.
   */
  method Shuffle<T>(a: array<T>, draws: seq<nat>)
    requires |draws| == a.Length
    requires forall i :: 0 <= i < |draws| ==> draws[i] <= i
    modifies a
    ensures multiset(a[..]) == old(multiset(a[..]))
  {
    var i := a.Length;
    while i > 1
      invariant 0 <= i <= a.Length
      invariant multiset(a[..]) == old(multiset(a[..]))
    {
      i := i - 1;
      var j := draws[i];
      a[i], a[j] := a[j], a[i];
    }
  }

  /**
   * `cv_splits`: shuffle the caller's list in place, then slice it into
   * train, dev and test. `seed` seeds Python's `random` module, which the
   * numpy shuffle does not use, so it has no effect.
   */
  method CvSplits<T>(pairs: array<T>, ndev: int, ntest: int, seed: int, draws: seq<nat>)
    returns (train: seq<T>, dev: seq<T>, test: seq<T>)
    requires |draws| == pairs.Length
    requires forall i :: 0 <= i < |draws| ==> draws[i] <= i
    modifies pairs
    ensures multiset(pairs[..]) == old(multiset(pairs[..]))
    ensures (train, dev, test) == Splits(pairs[..], ndev, ntest)
  {
    var nTrain := pairs.Length - ntest - ndev;
    var nDev := pairs.Length - ntest;
    var nTest := pairs.Length;
    Shuffle(pairs, draws);
    train := PySlice(pairs[..], 0, nTrain);
    dev := PySlice(pairs[..], nTrain, nDev);
    test := PySlice(pairs[..], nDev, nTest);
  }

  /**
   * What `cv_splits` returns with room for both held-out sets: the three
   * lists together are a permutation of the input.
   */
  lemma CvSplitsPermutation<T>(before: seq<T>, after: seq<T>, ndev: int, ntest: int)
    requires multiset(after) == multiset(before)
    requires 0 <= ndev && 0 <= ntest && ndev + ntest <= |before|
    ensures var (train, dev, test) := Splits(after, ndev, ntest);
      && multiset(train) + multiset(dev) + multiset(test) == multiset(before)
      && |dev| == ndev && |test| == ntest
  {
    assert |after| == |multiset(after)| == |before|;
    SplitsPartition(after, ndev, ntest);
    var (train, dev, test) := Splits(after, ndev, ntest);
    assert multiset(train + dev + test) == multiset(train) + multiset(dev) + multiset(test);
  }

  // ---------------------------------------------------------------------------
  // filter_homophone

  /** The pairs whose pronunciation is (`inside`) or is not (`!inside`) one of `words`, in order. */
  function Keep(pairs: seq<Pair>, words: seq<string>, inside: bool): (r: seq<Pair>)
    ensures |r| <= |pairs|
    ensures forall p :: p in r <==> p in pairs && (p.1 in words) == inside
    ensures forall p :: multiset(r)[p] == if (p.1 in words) == inside then multiset(pairs)[p] else 0
    ensures Subsequence(r, pairs)
  {
    if pairs == [] then []
    else
      var rest := Keep(pairs[1..], words, inside);
      assert pairs == [pairs[0]] + pairs[1..];
      if (pairs[0].1 in words) == inside then
        assert ([pairs[0]] + rest)[1..] == rest;
        [pairs[0]] + rest
      else
        assert rest == [] || rest[0] != pairs[0] by {
          if rest != [] {
            assert rest[0] in rest;
          }
        }
        rest
  }

  /**
   * `filter_homophone`: dev holds the pairs pronounced like a word of the
   * first list, tst those pronounced like a word of the second, trn those
   * pronounced like neither; each keeps the original order.
   */
  function FilterHomophone(pairs: seq<Pair>, devWords: seq<string>, testWords: seq<string>)
    : (r: (seq<Pair>, seq<Pair>, seq<Pair>))
    ensures var (trn, dev, tst) := r;
      && (forall p :: p in trn <==> p in pairs && p.1 !in devWords && p.1 !in testWords)
      && (forall p :: p in dev <==> p in pairs && p.1 in devWords)
      && (forall p :: p in tst <==> p in pairs && p.1 in testWords)
      && Subsequence(trn, pairs) && Subsequence(dev, pairs) && Subsequence(tst, pairs)
  {
    var dev := Keep(pairs, devWords, true);
    var tst := Keep(pairs, testWords, true);
    var trn := Keep(pairs, devWords + testWords, false);
    (trn, dev, tst)
  }

  /**
   * With disjoint pronunciation lists every pair lands in exactly one of
   * the three lists, so their lengths add up to the input's.
   */
  lemma {:induction false} FilterHomophoneSizes(pairs: seq<Pair>, devWords: seq<string>, testWords: seq<string>)
    requires forall w :: w in devWords ==> w !in testWords
    ensures var (trn, dev, tst) := FilterHomophone(pairs, devWords, testWords);
      |trn| + |dev| + |tst| == |pairs|
  {
    if pairs != [] {
      FilterHomophoneSizes(pairs[1..], devWords, testWords);
    }
  }

  /**
   * Overlapping lists put a pair in both dev and tst: the lengths then add
   * up to more than the input, which is what the caller's check reports.
   */
  lemma {:induction false} FilterHomophoneOverlap(pairs: seq<Pair>, devWords: seq<string>, testWords: seq<string>)
    requires exists p :: p in pairs && p.1 in devWords && p.1 in testWords
    ensures var (trn, dev, tst) := FilterHomophone(pairs, devWords, testWords);
      |trn| + |dev| + |tst| > |pairs|
  {
    var p :| p in pairs && p.1 in devWords && p.1 in testWords;
    FilterHomophoneAtLeast(pairs, devWords, testWords);
    FilterHomophoneStrict(pairs, devWords, testWords, p);
  }

  /** Every pair lands in at least one of the three lists. */
  lemma {:induction false} FilterHomophoneAtLeast(pairs: seq<Pair>, devWords: seq<string>, testWords: seq<string>)
    ensures var (trn, dev, tst) := FilterHomophone(pairs, devWords, testWords);
      |trn| + |dev| + |tst| >= |pairs|
  {
    if pairs != [] {
      FilterHomophoneAtLeast(pairs[1..], devWords, testWords);
    }
  }

  lemma {:induction false} FilterHomophoneStrict(pairs: seq<Pair>, devWords: seq<string>, testWords: seq<string>, p: Pair)
    requires p in pairs && p.1 in devWords && p.1 in testWords
    ensures var (trn, dev, tst) := FilterHomophone(pairs, devWords, testWords);
      |trn| + |dev| + |tst| > |pairs|
  {
    if pairs[0] == p {
      FilterHomophoneAtLeast(pairs[1..], devWords, testWords);
    } else {
      FilterHomophoneStrict(pairs[1..], devWords, testWords, p);
    }
  }
}
