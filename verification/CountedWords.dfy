/** What is counted: which characters separate words, which are stripped from them, and that case does not matter. */
module CountedWords {
  import opened Text
  import opened WordCount
  import opened Pipeline

  const PUNCTUATION: set<char> := {'.', ',', '!', '?', ';', ':', '\"', '\'', '(', ')', '[', ']', '{', '}'}
  const SPACES: set<char> := {' ', '\t', '\n', '\U{000B}', '\U{000C}', '\r'}

  /** The i-th capital and the i-th small letter. */
  predicate Capital(c: char) {
    'A' <= c <= 'Z'
  }

  predicate SmallOf(c: char, small: char) {
    Capital(c) && 'a' <= small <= 'z' && small as int - 'a' as int == c as int - 'A' as int
  }

  // ---- Letters -----------------------------------------------------------------------------------

  lemma LettersAreLowered(c: char)
    ensures Capital(c) ==> SmallOf(c, LowerChar(c))
    ensures !Capital(c) ==> LowerChar(c) == c
    ensures !Capital(LowerChar(c))
  {
  }

  /** The two characters are the same letter, or the same character. */
  predicate SameLetter(a: char, b: char) {
    a == b || SmallOf(a, b) || SmallOf(b, a)
  }

  lemma SameLetterExactly(a: char, b: char)
    ensures SameLetter(a, b) <==> LowerChar(a) == LowerChar(b)
  {
  }

  /** Two texts that differ in the case of letters only. */
  predicate SameButCase(s: string, t: string) {
    |s| == |t| && forall i :: 0 <= i < |s| ==> SameLetter(s[i], t[i])
  }

  /** Counting ignores case, in the mapper and in the sequential program. */
  lemma CaseDoesNotMatter(s: string, t: string)
    requires SameButCase(s, t)
    ensures SequentialBag(s) == SequentialBag(t)
    ensures MapperBag(s) == MapperBag(t)
  {
    assert Lower(s) == Lower(t) by {
      forall i | 0 <= i < |s|
        ensures LowerChar(s[i]) == LowerChar(t[i])
      {
        SameLetterExactly(s[i], t[i]);
      }
    }
    SequentialIsOneMapper(s);
    SequentialIsOneMapper(t);
  }

  // ---- What a counted word looks like ------------------------------------------------------------

  /** A word as the tables hold it: not empty, without capitals and white space, and with no punctuation at either
      end. */
  predicate Clean(w: string) {
    && w != ""
    && (forall i :: 0 <= i < |w| ==> !Capital(w[i]) && w[i] !in SPACES)
    && w[0] !in PUNCTUATION && w[|w| - 1] !in PUNCTUATION
  }

  lemma CharactersNamed(c: char)
    ensures IsPunct(c) <==> c in PUNCTUATION
    ensures IsSpace(c) <==> c in SPACES
  {
  }

  lemma {:induction false} TrimLeftStrips(w: string) returns (front: string)
    ensures w == front + TrimLeft(w) && forall c :: c in front ==> c in PUNCTUATION
    ensures TrimLeft(w) != "" ==> TrimLeft(w)[0] !in PUNCTUATION
  {
    if w == "" {
      front := "";
    } else {
      CharactersNamed(w[0]);
      if IsPunct(w[0]) {
        front := TrimLeftStrips(w[1..]);
        front := [w[0]] + front;
      } else {
        front := "";
      }
    }
  }

  lemma {:induction false} TrimRightStrips(w: string) returns (back: string)
    ensures w == TrimRight(w) + back && forall i :: 0 <= i < |back| ==> IsPunct(back[i])
    ensures TrimRight(w) != "" ==> !IsPunct(TrimRight(w)[|TrimRight(w)| - 1])
  {
    hide IsPunct;
    if w == "" || !IsPunct(w[|w| - 1]) {
      back := "";
      assert TrimRight(w) == w;
    } else {
      var init, last := w[..|w| - 1], w[|w| - 1];
      back := TrimRightStrips(init);
      assert w == init + [last];
      back := back + [last];
    }
  }

  /** Trimming takes punctuation off both ends, all of it, and nothing else. */
  lemma TrimStripsPunctuation(w: string) returns (front: string, back: string)
    ensures w == front + Trim(w) + back
    ensures forall c :: c in front + back ==> c in PUNCTUATION
    ensures Trim(w) != "" ==> Trim(w)[0] !in PUNCTUATION && Trim(w)[|Trim(w)| - 1] !in PUNCTUATION
  {
    front := TrimLeftStrips(w);
    back := TrimRightStrips(TrimLeft(w));
    forall i | 0 <= i < |back|
      ensures back[i] in PUNCTUATION
    {
      CharactersNamed(back[i]);
    }
    assert w == front + (Trim(w) + back) == front + Trim(w) + back;
    if Trim(w) != "" {
      CharactersNamed(Trim(w)[|Trim(w)| - 1]);
      assert TrimLeft(w)[0] == Trim(w)[0];
    }
  }

  lemma CleanedWordIsClean(w: string)
    requires NoSpace(w) && MapClean(w) != ""
    ensures Clean(MapClean(w))
  {
    var front, back := TrimStripsPunctuation(w);
    var t := Trim(w);
    forall i | 0 <= i < |t|
      ensures !Capital(LowerChar(t[i])) && LowerChar(t[i]) !in SPACES
      ensures LowerChar(t[i]) in PUNCTUATION ==> t[i] in PUNCTUATION
    {
      LettersAreLowered(t[i]);
      CharactersNamed(t[i]);
      assert w[|front| + i] == t[i] && t[i] in w;
    }
  }

  lemma {:induction false} BagOfCleanWords(ws: seq<string>, x: string)
    requires x in MapBag(ws)
    ensures exists i :: 0 <= i < |ws| && MapClean(ws[i]) == x && x != ""
  {
    var init := ws[..|ws| - 1];
    if x in MapBag(init) {
      BagOfCleanWords(init, x);
      var i :| 0 <= i < |init| && MapClean(init[i]) == x;
      assert ws[i] == init[i];
    } else {
      assert MapClean(ws[|ws| - 1]) == x;
    }
  }

  /** Every counted word is clean. */
  lemma CountedWordsAreClean(content: string, x: string)
    requires x in MapperBag(content)
    ensures Clean(x)
  {
    BagOfCleanWords(Fields(content), x);
    var i :| 0 <= i < |Fields(content)| && MapClean(Fields(content)[i]) == x;
    WordsAreClean("", content);
    CleanedWordIsClean(Fields(content)[i]);
  }

  // ---- How often a word is counted ---------------------------------------------------------------

  /** The words of the text that come out as `x`. */
  function Places(ws: seq<string>, x: string): set<nat> {
    set i: nat | i < |ws| && Lower(Trim(ws[i])) == x
  }

  lemma OneMorePlace(ws: seq<string>, x: string)
    requires ws != []
    ensures |Places(ws, x)| == |Places(ws[..|ws| - 1], x)| + (if MapClean(ws[|ws| - 1]) == x then 1 else 0)
  {
    hide Lower, Trim;
    var n := |ws| - 1;
    assert Places(ws, x) == Places(ws[..n], x) + (if MapClean(ws[n]) == x then {n} else {});
  }

  lemma {:induction false} BagCountsPlaces(ws: seq<string>, x: string)
    requires x != ""
    ensures MapBag(ws)[x] == |Places(ws, x)|
  {
    hide MapClean, Places;
    if ws == [] {
      NoPlaces(x);
    } else {
      BagCountsPlaces(ws[..|ws| - 1], x);
      OneMorePlace(ws, x);
    }
  }

  lemma NoPlaces(x: string)
    ensures Places([], x) == {}
  {
  }

  /** A table holds exactly the words that occur, each with the number of its occurrences; the sequential program has
      the same table. */
  lemma TablesCountOccurrences(content: string, x: string)
    requires x != ""
    ensures Count(Tally(MapperBag(content)), x) == |Places(Fields(content), x)|
    ensures x in Tally(MapperBag(content)) <==> Places(Fields(content), x) != {}
    ensures Tally(SequentialBag(content)) == Tally(MapperBag(content))
  {
    BagCountsPlaces(Fields(content), x);
    SequentialIsOneMapper(content);
  }

  // ---- Where words begin and end -----------------------------------------------------------------

  /** The gaps and the words in turn, a gap first and last. */
  function Interleave(gaps: seq<string>, ws: seq<string>): string
    requires |gaps| == |ws| + 1
  {
    if ws == [] then gaps[0] else gaps[0] + ws[0] + Interleave(gaps[1..], ws[1..])
  }

  /** White space only, and some of it between any two words. */
  predicate Separate(gaps: seq<string>) {
    && (forall i, c :: 0 <= i < |gaps| && c in gaps[i] ==> c in SPACES)
    && forall i :: 0 < i < |gaps| - 1 ==> gaps[i] != ""
  }

  lemma OneMoreGap(s: string, gaps: seq<string>, ws: seq<string>, c: char)
    requires |gaps| == |ws| + 1 && Interleave(gaps, ws) == s
    ensures Interleave(gaps[0 := [c] + gaps[0]], ws) == [c] + s
  {
    var more := gaps[0 := [c] + gaps[0]];
    if ws != [] {
      assert more[1..] == gaps[1..];
      assert [c] + gaps[0] + ws[0] + Interleave(gaps[1..], ws[1..])
          == [c] + (gaps[0] + ws[0] + Interleave(gaps[1..], ws[1..]));
    }
  }

  lemma OneMoreWord(w: string, s: string, gaps: seq<string>, ws: seq<string>)
    requires |gaps| == |ws| + 1 && Interleave(gaps, ws) == s
    ensures Interleave([""] + gaps, [w] + ws) == w + s
  {
    assert ([""] + gaps)[1..] == gaps && ([w] + ws)[1..] == ws;
  }

  /** A text is its words with white space around them, and some between any two. With the words free of white space
      and not empty, that is what its words are. */
  lemma {:induction false} WordsAreSeparated(cur: string, s: string) returns (gaps: seq<string>)
    ensures |gaps| == |Words(cur, s)| + 1 && Interleave(gaps, Words(cur, s)) == cur + s
    ensures Separate(gaps) && (cur != "" ==> gaps[0] == "")
    decreases s
  {
    if s == "" {
      gaps := if cur == "" then [""] else ["", ""];
      assert cur + s == cur;
      if cur != "" {
        OneMoreWord(cur, "", [""], []);
        assert [""] + [""] == gaps && [cur] + [] == [cur];
      }
    } else {
      CharactersNamed(s[0]);
      if IsSpace(s[0]) {
        var rest := WordsAreSeparated("", s[1..]);
        var ws := Words("", s[1..]);
        assert "" + s[1..] == s[1..] && [s[0]] + s[1..] == s;
        OneMoreGap(s[1..], rest, ws, s[0]);
        gaps := rest[0 := [s[0]] + rest[0]];
        if cur != "" {
          OneMoreWord(cur, s, gaps, ws);
          gaps := [""] + gaps;
        } else {
          assert OneIf(cur) + ws == ws && cur + s == s;
        }
      } else {
        gaps := WordsAreSeparated(cur + [s[0]], s[1..]);
        assert cur + [s[0]] + s[1..] == cur + s;
      }
    }
  }

  /** Text on the two sides of any of the six white-space characters is counted apart. */
  lemma SpacesSeparate(a: string, c: char, b: string)
    requires c in SPACES
    ensures MapperBag(a + [c] + b) == MapperBag(a) + MapperBag(b)
  {
    CharactersNamed(c);
    var x := a + [c];
    CutBetween(x, b);
    CutBetween(a, [c]);
    assert TailRun(x) == "";
    assert HeadRun([c]) == "";
    assert [c][1..] == "" && Words("", "") == [];
    assert Fields([c]) == OneIf("") + [] == [];
  }

  /** A run of other characters is one word, with its capitals and outer punctuation cleaned away. */
  lemma OthersStayTogether(w: string)
    requires w != "" && forall i :: 0 <= i < |w| ==> w[i] !in SPACES
    ensures Fields(w) == [w] && MapperBag(w) == Bag(Lower(Trim(w)))
  {
    RunIsRead("", w);
    assert "" + w == w;
    ShareOfOne(w);
  }

  lemma {:induction false} RunIsRead(cur: string, w: string)
    requires forall i :: 0 <= i < |w| ==> w[i] !in SPACES
    ensures Words(cur, w) == OneIf(cur + w)
    decreases w
  {
    if w == "" {
      assert cur + w == cur;
    } else {
      CharactersNamed(w[0]);
      RunIsRead(cur + [w[0]], w[1..]);
      assert cur + [w[0]] + w[1..] == cur + w;
    }
  }
}
