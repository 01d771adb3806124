/** The distributed count against the sequential one. */
module Pipeline {
  import opened Text
  import opened WordCount

  // ---- Bags of words -----------------------------------------------------------------------------

  lemma {:induction false} MapBagOfAppend(a: seq<string>, b: seq<string>)
    ensures MapBag(a + b) == MapBag(a) + MapBag(b)
  {
    if b == [] {
      assert a + b == a;
    } else {
      assert (a + b)[..|a + b| - 1] == a + b[..|b| - 1];
      MapBagOfAppend(a, b[..|b| - 1]);
    }
  }

  /** What one word contributes. */
  function Share(w: string): multiset<string> {
    Bag(MapClean(w))
  }

  lemma ShareOfOne(w: string)
    ensures MapBag(OneIf(w)) == Share(w)
    ensures |Share(w)| == if HasCore(w) then 1 else 0
  {
    TrimmedAway(w);
    if w == "" {
      assert MapBag([]) == multiset{};
    } else {
      assert [w][..0] == [];
    }
  }

  // ---- One cut -----------------------------------------------------------------------------------

  /** The cut falls inside a word and leaves something other than punctuation of it on both sides. */
  predicate Severs(s: string, cut: nat)
    requires cut <= |s|
  {
    HasCore(TailRun(s[..cut])) && HasCore(HeadRun(s[cut..]))
  }

  /** The words away from the cut. */
  function Untouched(a: string, b: string): multiset<string>
  {
    HeadRunIsPrefix(b);
    MapBag(Finished("", a)) + MapBag(Fields(b[|HeadRun(b)|..]))
  }

  lemma BagOfWhole(a: string, b: string)
    ensures MapperBag(a + b) == Untouched(a, b) + Share(TailRun(a) + HeadRun(b))
  {
    WordsOfAppend("", a, b);
    assert "" + a == a;
    WordsFromRun(TailRun(a), b);
    var whole, rest := OneIf(TailRun(a) + HeadRun(b)), Fields(b[|HeadRun(b)|..]);
    MapBagOfAppend(Finished("", a), whole + rest);
    MapBagOfAppend(whole, rest);
    ShareOfOne(TailRun(a) + HeadRun(b));
  }

  lemma BagsOfParts(a: string, b: string)
    ensures MapperBag(a) + MapperBag(b) == Untouched(a, b) + Share(TailRun(a)) + Share(HeadRun(b))
  {
    WordsOfAppend("", a, "");
    assert a + "" == a && "" + a == a;
    MapBagOfAppend(Finished("", a), OneIf(TailRun(a)));
    ShareOfOne(TailRun(a));
    WordsFromRun("", b);
    assert "" + HeadRun(b) == HeadRun(b);
    MapBagOfAppend(OneIf(HeadRun(b)), Fields(b[|HeadRun(b)|..]));
    ShareOfOne(HeadRun(b));
  }

  /** `parts` against `whole` when a cut did or did not sever a word. */
  predicate OneCutApart(whole: multiset<string>, parts: multiset<string>, severed: bool) {
    if severed then |whole - parts| == 1 && |parts - whole| == 2
    else parts == whole
  }

  /** A word cut in two fragments: if both have a core two other words take its place, otherwise nothing
      changes. */
  lemma SharesOfCutWord(p: string, h: string)
    ensures if HasCore(p) && HasCore(h)
            then |Share(p + h)| == 1 && |Share(p) + Share(h)| == 2 && Share(p + h) !! Share(p) + Share(h)
            else Share(p + h) == Share(p) + Share(h)
  {
    ShareOfOne(p);
    ShareOfOne(h);
    if HasCore(p) && HasCore(h) {
      var c :| c in p && !IsPunct(c);
      assert c in p + h;
      ShareOfOne(p + h);
      TrimOfWhole(p, h);
    } else {
      TrimAcrossHarmlessCut(p, h);
      TrimmedAway(p);
      TrimmedAway(h);
    }
  }

  lemma BagsAroundCut(common: multiset<string>, x: multiset<string>, y: multiset<string>, severed: bool)
    requires if severed then |x| == 1 && |y| == 2 && x !! y else x == y
    ensures OneCutApart(common + x, common + y, severed)
  {
    if severed {
      assert (common + x) - (common + y) == x;
      assert (common + y) - (common + x) == y;
    }
  }

  lemma CutBetween(a: string, b: string)
    ensures OneCutApart(MapperBag(a + b), MapperBag(a) + MapperBag(b), HasCore(TailRun(a)) && HasCore(HeadRun(b)))
  {
    var p, h := TailRun(a), HeadRun(b);
    var common, whole, left, right := Untouched(a, b), Share(p + h), Share(p), Share(h);
    assert MapperBag(a + b) == common + whole by {
      BagOfWhole(a, b);
    }
    assert MapperBag(a) + MapperBag(b) == common + (left + right) by {
      BagsOfParts(a, b);
    }
    SharesOfCutWord(p, h);
    BagsAroundCut(common, whole, left + right, HasCore(p) && HasCore(h));
  }

  /** The exact effect of one cut, for every text and place: if the cut severs a word, the parts have lost
      exactly one occurrence and gained exactly two; otherwise they hold the same words. */
  lemma CutEffect(s: string, cut: nat)
    requires cut <= |s|
    ensures OneCutApart(MapperBag(s), MapperBag(s[..cut]) + MapperBag(s[cut..]), Severs(s, cut))
  {
    assert s[..cut] + s[cut..] == s;
    CutBetween(s[..cut], s[cut..]);
  }

  lemma SmallerBag(x: multiset<string>, y: multiset<string>)
    requires x <= y
    ensures |x| <= |y|
  {
    assert y == x + (y - x);
  }

  // ---- Reducing mapper results -------------------------------------------------------------------

  function Sum(bags: seq<multiset<string>>): multiset<string> {
    if bags == [] then multiset{} else Sum(bags[..|bags| - 1]) + bags[|bags| - 1]
  }

  function Tallies(bags: seq<multiset<string>>): seq<Counts> {
    seq(|bags|, i requires 0 <= i < |bags| => Tally(bags[i]))
  }

  lemma {:induction false} TallySums(bags: seq<multiset<string>>, w: string)
    ensures SumOf(Tallies(bags), w) == Sum(bags)[w]
    ensures w in WordsIn(Tallies(bags)) <==> w in Sum(bags)
  {
    if bags == [] {
    } else {
      assert Tallies(bags)[..|bags| - 1] == Tallies(bags[..|bags| - 1]);
      TallySums(bags[..|bags| - 1], w);
    }
  }

  /** Reducing the tallies of some bags gives the tally of their sum. */
  lemma ReduceAddsBags(bags: seq<multiset<string>>)
    ensures Total(Tallies(bags)) == Tally(Sum(bags))
  {
    forall w
      ensures w in Total(Tallies(bags)) <==> w in Tally(Sum(bags))
      ensures w in Sum(bags) ==> Total(Tallies(bags))[w] == Tally(Sum(bags))[w]
    {
      TallySums(bags, w);
    }
  }

  function Without(rs: seq<Counts>, i: nat): seq<Counts>
    requires i < |rs|
  {
    rs[..i] + rs[i + 1..]
  }

  lemma {:induction false} TakeOneOut(rs: seq<Counts>, i: nat, w: string)
    requires i < |rs|
    ensures SumOf(rs, w) == SumOf(Without(rs, i), w) + Count(rs[i], w)
    ensures w in WordsIn(rs) <==> w in WordsIn(Without(rs, i)) || w in rs[i]
  {
    var init := rs[..|rs| - 1];
    if i == |rs| - 1 {
      assert Without(rs, i) == init;
    } else {
      assert Without(rs, i)[..|rs| - 2] == Without(init, i);
      TakeOneOut(init, i, w);
    }
  }

  lemma BagWithout(rs: seq<Counts>, i: nat)
    requires i < |rs|
    ensures multiset(Without(rs, i)) == multiset(rs) - multiset{rs[i]}
  {
    assert rs == rs[..i] + [rs[i]] + rs[i + 1..];
  }

  lemma {:induction false} OrderOfResults(rs: seq<Counts>, ss: seq<Counts>, w: string)
    requires multiset(rs) == multiset(ss)
    ensures SumOf(rs, w) == SumOf(ss, w)
    ensures w in WordsIn(rs) <==> w in WordsIn(ss)
    decreases |rs|
  {
    if rs == [] {
      assert |multiset(ss)| == 0;
      assert ss == [];
    } else {
      var last := rs[|rs| - 1];
      assert last in multiset(ss);
      var i :| 0 <= i < |ss| && ss[i] == last;
      BagWithout(ss, i);
      assert rs == rs[..|rs| - 1] + [last];
      assert multiset(rs[..|rs| - 1]) == multiset(rs) - multiset{last};
      OrderOfResults(rs[..|rs| - 1], Without(ss, i), w);
      TakeOneOut(ss, i, w);
    }
  }

  /** The reducer's result does not depend on the order in which the mapper results are named. */
  lemma MapperOrderIrrelevant(rs: seq<Counts>, ss: seq<Counts>)
    requires multiset(rs) == multiset(ss)
    ensures Total(rs) == Total(ss)
  {
    forall w
      ensures w in Total(rs) <==> w in Total(ss)
      ensures w in Total(rs) ==> Total(rs)[w] == Total(ss)[w]
    {
      OrderOfResults(rs, ss, w);
    }
  }

  // ---- The whole pipeline ------------------------------------------------------------------------

  function Distributed(content: string): multiset<string> {
    var cs := Chunks(content);
    MapperBag(cs[0]) + MapperBag(cs[1]) + MapperBag(cs[2])
  }

  /** What the mappers leave for the reducer, one tally a chunk. */
  function MapperResults(content: string): seq<Counts> {
    var cs := Chunks(content);
    Tallies([MapperBag(cs[0]), MapperBag(cs[1]), MapperBag(cs[2])])
  }

  function FirstCut(content: string): nat {
    |content| / 3
  }

  function SecondCut(content: string): nat {
    2 * (|content| / 3)
  }

  /** Neither cut severs a word; the first is judged inside the first two chunks. */
  predicate CleanCuts(content: string) {
    !Severs(content, SecondCut(content)) && !Severs(content[..SecondCut(content)], FirstCut(content))
  }

  /** How many cuts sever a word. */
  function Severed(content: string): nat {
    (if Severs(content, SecondCut(content)) then 1 else 0)
    + (if Severs(content[..SecondCut(content)], FirstCut(content)) then 1 else 0)
  }

  lemma TwoCuts(content: string)
    ensures var head := content[..SecondCut(content)];
            Chunks(content) == [head[..FirstCut(content)], head[FirstCut(content)..], content[SecondCut(content)..]]
  {
    var head := content[..SecondCut(content)];
    assert head[..FirstCut(content)] == content[..FirstCut(content)];
    assert head[FirstCut(content)..] == content[FirstCut(content)..SecondCut(content)];
  }

  /** Two changes in a row, the first of the bag `x` into `y + rest`, the second of `y` into `z`. */
  lemma TwoEffects(x: multiset<string>, y: multiset<string>, z: multiset<string>, rest: multiset<string>,
    c1: bool, c2: bool)
    requires OneCutApart(x, y + rest, c1) && OneCutApart(y, z, c2)
    ensures var severed := (if c1 then 1 else 0) + (if c2 then 1 else 0);
            && |z + rest| == |x| + severed
            && (severed == 0 ==> z + rest == x)
            && |x - (z + rest)| + |(z + rest) - x| <= 3 * severed
            && (severed <= 1 ==> |x - (z + rest)| == severed && |(z + rest) - x| == 2 * severed)
  {
    BagTriangle(x, y + rest, z + rest);
    assert (y + rest) - (z + rest) == y - z && (z + rest) - (y + rest) == z - y;
    assert !c1 ==> |x - (y + rest)| == 0 && |(y + rest) - x| == 0;
    assert !c2 ==> |y - z| == 0 && |z - y| == 0;
  }

  /** The deviation of the distributed count, for every text: its total is exactly the number of severed words
      above the sequential one; one severed word costs exactly one occurrence and adds exactly two, and two
      severed words change at most six. */
  lemma DeviationIsExact(content: string)
    ensures |Distributed(content)| == |SequentialBag(content)| + Severed(content)
    ensures CleanCuts(content) ==> Distributed(content) == SequentialBag(content)
    ensures Severed(content) == 1 ==>
              |SequentialBag(content) - Distributed(content)| == 1
              && |Distributed(content) - SequentialBag(content)| == 2
    ensures |SequentialBag(content) - Distributed(content)| + |Distributed(content) - SequentialBag(content)|
            <= 3 * Severed(content)
  {
    var head := content[..SecondCut(content)];
    SequentialIsOneMapper(content);
    TwoCuts(content);
    CutEffect(content, SecondCut(content));
    CutEffect(head, FirstCut(content));
    var rest := MapperBag(content[SecondCut(content)..]);
    var z := MapperBag(head[..FirstCut(content)]) + MapperBag(head[FirstCut(content)..]);
    TwoEffects(MapperBag(content), MapperBag(head), z, rest,
               Severs(content, SecondCut(content)), Severs(head, FirstCut(content)));
    assert Distributed(content) == z + rest;
  }

  lemma BagTriangle(x: multiset<string>, y: multiset<string>, z: multiset<string>)
    ensures |x - z| <= |x - y| + |y - z| && |z - x| <= |z - y| + |y - x|
  {
    SmallerBag(x - z, (x - y) + (y - z));
    SmallerBag(z - x, (z - y) + (y - x));
  }

  /** Tables of counts are equal only for equal bags. */
  lemma TallyIsInjective(a: multiset<string>, b: multiset<string>)
    requires Tally(a) == Tally(b)
    ensures a == b
  {
    forall w
      ensures a[w] == b[w]
    {
      assert w in Tally(a) <==> w in Tally(b);
      if w in a {
        assert Tally(a)[w] == Tally(b)[w];
      }
    }
  }

  lemma SumOfThree(x: multiset<string>, y: multiset<string>, z: multiset<string>)
    ensures Sum([x, y, z]) == x + y + z
  {
    assert [x, y, z][..2] == [x, y] && [x, y][..1] == [x] && [x][..0] == [];
    assert Sum([x]) == x && Sum([x, y]) == x + y;
  }

  /** The pipeline agrees with the sequential program exactly on the texts whose two cuts sever no word,
      whatever the order of the mapper results; and its total exceeds the sequential one by the number of
      severed words, at most two. */
  lemma PipelineIsExact(content: string, results: seq<Counts>)
    requires multiset(results) == multiset(MapperResults(content))
    ensures Total(results) == Tally(Distributed(content))
    ensures Total(results) == Tally(SequentialBag(content)) <==> CleanCuts(content)
    ensures |Distributed(content)| == |SequentialBag(content)| + Severed(content)
         <= |SequentialBag(content)| + 2
  {
    var cs := Chunks(content);
    var bags := [MapperBag(cs[0]), MapperBag(cs[1]), MapperBag(cs[2])];
    MapperOrderIrrelevant(results, MapperResults(content));
    ReduceAddsBags(bags);
    SumOfThree(bags[0], bags[1], bags[2]);
    DeviationIsExact(content);
    if Total(results) == Tally(SequentialBag(content)) {
      TallyIsInjective(Distributed(content), SequentialBag(content));
    }
  }

  /** A cut next to white space, or at an end of the text. */
  predicate AtWordEdge(s: string, cut: nat)
    requires cut <= |s|
  {
    cut == 0 || cut == |s| || IsSpace(s[cut - 1]) || IsSpace(s[cut])
  }

  lemma EdgesSeverNothing(s: string, cut: nat)
    requires cut <= |s| && AtWordEdge(s, cut)
    ensures !Severs(s, cut)
  {
    var a, b := s[..cut], s[cut..];
    assert a == "" || b == "" || (a[|a| - 1] == s[cut - 1] && b[0] == s[cut]);
  }

  /** In particular: cuts at word edges give exactly the sequential counts. */
  lemma CutsAtWordEdges(content: string, results: seq<Counts>)
    requires multiset(results) == multiset(MapperResults(content))
    requires AtWordEdge(content, FirstCut(content)) && AtWordEdge(content, SecondCut(content))
    ensures Total(results) == Tally(SequentialBag(content))
  {
    var head := content[..SecondCut(content)];
    EdgesSeverNothing(content, SecondCut(content));
    if AtWordEdge(head, FirstCut(content)) {
      EdgesSeverNothing(head, FirstCut(content));
    }
    PipelineIsExact(content, results);
  }

  // ---- The bounds are attained -------------------------------------------------------------------

  /** A word that cleaning leaves as it is. */
  predicate Plain(w: string) {
    forall i :: 0 <= i < |w| ==> !IsSpace(w[i]) && !IsPunct(w[i]) && LowerChar(w[i]) == w[i]
  }

  lemma {:induction false} PlainIsRead(cur: string, w: string, s: string)
    requires Plain(w)
    ensures Words(cur, w + s) == Words(cur + w, s)
    decreases w
  {
    if w == "" {
      assert w + s == s && cur + w == cur;
    } else {
      assert (w + s)[1..] == w[1..] + s;
      PlainIsRead(cur + [w[0]], w[1..], s);
      assert cur + [w[0]] + w[1..] == cur + w;
    }
  }

  lemma PlainShare(w: string)
    requires w != "" && Plain(w)
    ensures Share(w) == multiset{w}
  {
    assert TrimLeft(w) == w && TrimRight(w) == w;
    assert Lower(w) == w;
  }

  lemma OnePlain(w: string)
    requires w != "" && Plain(w)
    ensures MapperBag(w) == multiset{w}
  {
    PlainIsRead("", w, "");
    assert w + "" == w && "" + w == w;
    ShareOfOne(w);
    PlainShare(w);
  }

  lemma TwoPlain(v: string, w: string)
    requires v != "" && w != "" && Plain(v) && Plain(w)
    ensures MapperBag(v + " " + w) == multiset{v, w}
  {
    PlainIsRead("", v, " " + w);
    assert v + " " + w == v + (" " + w) && "" + v == v && (" " + w)[1..] == w;
    MapBagOfAppend([v], Fields(w));
    OnePlain(w);
    ShareOfOne(v);
    PlainShare(v);
  }

  /** Texts on which both cuts sever a word: a word of four letters and one of five, such as "abcd efghi". The
      tables differ, and total and occurrences deviate by the full two and six. */
  lemma BothCutsSever(v: string, w: string)
    requires |v| == 4 && |w| == 5 && Plain(v) && Plain(w) && v != w[1..]
    ensures var content := v + " " + w;
            && !CleanCuts(content)
            && Total(MapperResults(content)) != Tally(SequentialBag(content))
            && |Distributed(content)| == |SequentialBag(content)| + 2
            && |SequentialBag(content) - Distributed(content)| + |Distributed(content) - SequentialBag(content)| == 6
  {
    hide *;
    var content := v + " " + w;
    CutInFour(v, w);
    AllDifferent(v, w, v[..3], v[3..], w[..1], w[1..]);
    PipelineIsExact(content, MapperResults(content));
    DifferentTables(content);
  }

  lemma AllDifferent(v: string, w: string, a: string, b: string, c: string, d: string)
    requires {v, w} !! {a, b, c, d}
    ensures var whole, parts := multiset{v, w}, multiset{a, b, c, d};
            |parts| == |whole| + 2 && |whole - parts| + |parts - whole| == 6
  {
    var whole, parts := multiset{v, w}, multiset{a, b, c, d};
    assert whole - parts == whole && parts - whole == parts;
  }

  lemma DifferentTables(content: string)
    requires Distributed(content) != SequentialBag(content)
    ensures Total(MapperResults(content)) != Tally(SequentialBag(content))
    ensures !CleanCuts(content)
  {
    hide *;
    PipelineIsExact(content, MapperResults(content));
    DeviationIsExact(content);
  }

  lemma ThreeChunks(v: string, w: string)
    requires |v| == 4 && |w| == 5
    ensures Chunks(v + " " + w) == [v[..3], v[3..] + " " + w[..1], w[1..]]
  {
    var content := v + " " + w;
    assert |content| / 3 == 3;
    assert content[..3] == v[..3] && content[3..6] == v[3..] + " " + w[..1] && content[6..] == w[1..];
  }

  lemma CutInFour(v: string, w: string)
    requires |v| == 4 && |w| == 5 && Plain(v) && Plain(w)
    ensures SequentialBag(v + " " + w) == multiset{v, w}
    ensures Distributed(v + " " + w) == multiset{v[..3], v[3..], w[..1], w[1..]}
  {
    hide MapperBag, SequentialBag;
    SequentialIsOneMapper(v + " " + w);
    TwoPlain(v, w);
    ThreeChunks(v, w);
    OnePlain(v[..3]);
    TwoPlain(v[3..], w[..1]);
    OnePlain(w[1..]);
  }
}
