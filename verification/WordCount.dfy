/** The word count: the sequential program, and the splitter, mapper and reducer of the pipeline. */
module WordCount {
  import opened Options
  import opened Text

  type Counts = map<string, int>

  /** A bag of words as a table of counts. */
  function Tally(bag: multiset<string>): Counts {
    map w | w in bag :: bag[w]
  }

  function Count(counts: Counts, w: string): int {
    if w in counts then counts[w] else 0
  }

  function Bumped(counts: Counts, w: string): Counts {
    counts[w := Count(counts, w) + 1]
  }

  /** The bag with one word, or none when nothing is left of it. */
  function Bag(w: string): multiset<string> {
    if w == "" then multiset{} else multiset{w}
  }

  lemma TallyBumped(bag: multiset<string>, w: string)
    ensures Tally(bag + Bag(w)) == if w == "" then Tally(bag) else Bumped(Tally(bag), w)
  {
    assert bag + multiset{} == bag;
  }

  // ---- Mapper and sequential program -------------------------------------------------------------

  /** The mapper trims a word, then lower-cases it. */
  function MapClean(w: string): string {
    Lower(Trim(w))
  }

  function MapBag(ws: seq<string>): multiset<string> {
    if ws == [] then multiset{} else MapBag(ws[..|ws| - 1]) + Bag(MapClean(ws[|ws| - 1]))
  }

  /** The sequential program lower-cases the whole text first and trims afterwards. */
  function StripBag(ws: seq<string>): multiset<string> {
    if ws == [] then multiset{} else StripBag(ws[..|ws| - 1]) + Bag(Trim(ws[|ws| - 1]))
  }

  function MapperBag(content: string): multiset<string> {
    MapBag(Fields(content))
  }

  function SequentialBag(content: string): multiset<string> {
    StripBag(Fields(Lower(content)))
  }

  lemma MapBagStep(words: seq<string>, i: nat)
    requires i < |words|
    ensures MapBag(words[..i + 1]) == MapBag(words[..i]) + Bag(Lower(Trim(words[i])))
  {
    assert words[..i + 1][..i] == words[..i];
  }

  lemma StripBagStep(words: seq<string>, i: nat)
    requires i < |words|
    ensures StripBag(words[..i + 1]) == StripBag(words[..i]) + Bag(Trim(words[i]))
  {
    assert words[..i + 1][..i] == words[..i];
  }

  method MapChunk(content: string) returns (wordCounts: Counts)
    ensures wordCounts == Tally(MapperBag(content))
  {
    wordCounts := map[];
    var words := Fields(content);
    for i := 0 to |words|
      invariant wordCounts == Tally(MapBag(words[..i]))
    {
      var word := Lower(Trim(words[i]));
      MapBagStep(words, i);
      TallyBumped(MapBag(words[..i]), word);
      if word != "" {
        wordCounts := Bumped(wordCounts, word);
      }
    }
    assert words[..|words|] == words;
  }

  method SequentialCount(content: string) returns (wordCounts: Counts, unique: nat)
    ensures wordCounts == Tally(SequentialBag(content))
    ensures unique == |wordCounts|
  {
    wordCounts := map[];
    var words := Fields(Lower(content));
    for i := 0 to |words|
      invariant wordCounts == Tally(StripBag(words[..i]))
    {
      var cleaned := Trim(words[i]);
      StripBagStep(words, i);
      TallyBumped(StripBag(words[..i]), cleaned);
      if cleaned != "" {
        wordCounts := Bumped(wordCounts, cleaned);
      }
    }
    assert words[..|words|] == words;
    unique := |wordCounts|;
  }

  lemma LowerEachSplit(ws: seq<string>)
    requires ws != []
    ensures LowerEach(ws)[..|ws| - 1] == LowerEach(ws[..|ws| - 1])
    ensures LowerEach(ws)[|ws| - 1] == Lower(ws[|ws| - 1])
  {
  }

  lemma SameShare(w: string)
    ensures Bag(Trim(Lower(w))) == Bag(MapClean(w))
  {
    TrimOfLower(w);
  }

  lemma {:induction false} StripAfterLower(ws: seq<string>)
    ensures StripBag(LowerEach(ws)) == MapBag(ws)
  {
    if ws == [] {
    } else {
      StripAfterLower(ws[..|ws| - 1]);
      LowerEachSplit(ws);
      SameShare(ws[|ws| - 1]);
    }
  }

  /** On one text the sequential program and a mapper count the same words. */
  lemma SequentialIsOneMapper(content: string)
    ensures SequentialBag(content) == MapperBag(content)
  {
    WordsOfLower("", content);
    assert Lower("") == "";
    StripAfterLower(Fields(content));
  }

  // ---- Splitter ----------------------------------------------------------------------------------

  function Chunks(content: string): (chunks: seq<string>)
    ensures |chunks| == 3
  {
    var size := |content| / 3;
    [content[..size], content[size..2 * size], content[2 * size..]]
  }

  /** Nothing is lost or repeated in splitting; two chunks are equally long and the last is longer by at most two. */
  lemma ChunksAreTheContent(content: string)
    ensures Concat(Chunks(content)) == content
    ensures var cs := Chunks(content); |cs[0]| == |cs[1]| <= |cs[2]| <= |cs[0]| + 2
  {
    var cs := Chunks(content);
    ConcatOfThree(cs[0], cs[1], cs[2]);
  }

  lemma ConcatOfThree(a: string, b: string, c: string)
    ensures Concat([a, b, c]) == a + b + c
  {
    assert [a, b, c][1..] == [b, c] && [b, c][1..] == [c] && [c][1..] == [];
    assert Concat([c]) == c + "" == c;
    assert Concat([b, c]) == b + c;
    assert Concat([a, b, c]) == a + (b + c);
  }

  /** `uploads[i]` says whether the i-th upload succeeds. */
  method SplitAndUpload(content: string, uploads: seq<bool>) returns (code: int, stored: seq<string>)
    requires |uploads| == 3
    ensures code == 200 ==> stored == Chunks(content) && forall i :: 0 <= i < 3 ==> uploads[i]
    ensures code != 200 ==> code == 500 && stored < Chunks(content) && !uploads[|stored|]
  {
    var chunks := Chunks(content);
    stored := [];
    for i := 0 to |chunks|
      invariant stored == chunks[..i]
      invariant forall j :: 0 <= j < i ==> uploads[j]
    {
      if !uploads[i] {
        return 500, stored;
      }
      stored := stored + [chunks[i]];
    }
    code := 200;
  }

  // ---- Reducer -----------------------------------------------------------------------------------

  function SumOf(results: seq<Counts>, w: string): int {
    if results == [] then 0 else SumOf(results[..|results| - 1], w) + Count(results[|results| - 1], w)
  }

  function WordsIn(results: seq<Counts>): set<string> {
    if results == [] then {} else WordsIn(results[..|results| - 1]) + results[|results| - 1].Keys
  }

  /** Every word of any result, with its counts added up. */
  function Total(results: seq<Counts>): Counts {
    map w | w in WordsIn(results) :: SumOf(results, w)
  }

  /** The inner loop of the reducer: Go visits the entries of `counts` in an order of its own. */
  method MergeInto(finalCounts: Counts, counts: Counts) returns (merged: Counts)
    ensures merged.Keys == finalCounts.Keys + counts.Keys
    ensures forall w :: w in merged ==> merged[w] == Count(finalCounts, w) + Count(counts, w)
  {
    merged := finalCounts;
    var left := counts.Keys;
    while left != {}
      invariant left <= counts.Keys
      invariant merged.Keys == finalCounts.Keys + (counts.Keys - left)
      invariant forall w :: w in merged ==>
                  merged[w] == Count(finalCounts, w) + (if w in left then 0 else Count(counts, w))
      decreases left
    {
      var word :| word in left;
      left := left - {word};
      merged := merged[word := (if word in merged then merged[word] else 0) + counts[word]];
    }
  }

  function Values(results: seq<Option<Counts>>): seq<Counts>
    requires None !in results
  {
    seq(|results|, i requires 0 <= i < |results| => results[i].value)
  }

  /** `/reduce`: `results` are the mapper results that the request names, None for one that cannot be read or
      parsed; `uploads` says whether the final upload succeeds. `totalWords` counts the different words. */
  method Reduce(bucket: string, results: seq<Option<Counts>>, output: string, uploads: bool)
    returns (code: int, stored: Option<Counts>, totalWords: nat)
    ensures code == 400 <==> bucket == "" || results == [] || output == ""
    ensures code == 200 <==> bucket != "" && results != [] && output != "" && None !in results && uploads
    ensures code == 200 ==> stored == Some(Total(Values(results))) && totalWords == |WordsIn(Values(results))|
    ensures code != 200 ==> stored == None && (code == 400 || code == 500)
  {
    stored, totalWords := None, 0;
    if bucket == "" || |results| == 0 || output == "" {
      return 400, stored, totalWords;
    }
    var finalCounts: Counts := map[];
    ghost var read: seq<Counts> := [];
    for i := 0 to |results|
      invariant |read| == i
      invariant forall j :: 0 <= j < i ==> results[j] == Some(read[j])
      invariant finalCounts == Total(read)
    {
      if results[i].None? {
        return 500, stored, totalWords;
      }
      ghost var more := read + [results[i].value];
      assert more[..i] == read;
      finalCounts := MergeInto(finalCounts, results[i].value);
      TotalStep(read, results[i].value, finalCounts);
      read := more;
    }
    assert read == Values(results);
    if !uploads {
      return 500, stored, totalWords;
    }
    code, stored, totalWords := 200, Some(finalCounts), |finalCounts|;
    assert finalCounts.Keys == WordsIn(Values(results));
  }

  lemma {:induction false} AbsentSumsToZero(results: seq<Counts>, w: string)
    requires w !in WordsIn(results)
    ensures SumOf(results, w) == 0
  {
    if results == [] {
    } else {
      AbsentSumsToZero(results[..|results| - 1], w);
    }
  }

  lemma TotalStep(read: seq<Counts>, counts: Counts, merged: Counts)
    requires merged.Keys == Total(read).Keys + counts.Keys
    requires forall w :: w in merged ==> merged[w] == Count(Total(read), w) + Count(counts, w)
    ensures merged == Total(read + [counts])
  {
    var more := read + [counts];
    assert more[..|read|] == read;
    forall w | w in merged
      ensures merged[w] == SumOf(more, w)
    {
      if w !in WordsIn(read) {
        AbsentSumsToZero(read, w);
      }
    }
  }
}
