/** Words of a text: splitting at white space, trimming punctuation, lower-casing (ASCII). */
module Text {
  predicate IsSpace(c: char) {
    9 <= c as int <= 13 || c == ' '
  }

  predicate IsPunct(c: char) {
    c in ".,!?;:\"'()[]{}"
  }

  function LowerChar(c: char): char {
    if 'A' <= c <= 'Z' then (c as int + 32) as char else c
  }

  function Lower(s: string): (t: string)
    ensures |t| == |s|
  {
    seq(|s|, i requires 0 <= i < |s| => LowerChar(s[i]))
  }

  function TrimLeft(s: string): string {
    if s != "" && IsPunct(s[0]) then TrimLeft(s[1..]) else s
  }

  function TrimRight(s: string): string {
    if s != "" && IsPunct(s[|s| - 1]) then TrimRight(s[..|s| - 1]) else s
  }

  function Trim(s: string): string {
    TrimRight(TrimLeft(s))
  }

  /** The word on its own, or nothing when it is empty. */
  function OneIf(w: string): seq<string> {
    if w == "" then [] else [w]
  }

  /** The words of `s` when the text before it ended in the unfinished word `cur`. */
  function Words(cur: string, s: string): seq<string>
    decreases s
  {
    if s == "" then OneIf(cur)
    else if IsSpace(s[0]) then OneIf(cur) + Words("", s[1..])
    else Words(cur + [s[0]], s[1..])
  }

  function Fields(s: string): seq<string> {
    Words("", s)
  }

  // ---- What the words of a text are --------------------------------------------------------------

  predicate NoSpace(s: string) {
    forall c :: c in s ==> !IsSpace(c)
  }

  function Concat(ws: seq<string>): string {
    if ws == [] then "" else ws[0] + Concat(ws[1..])
  }

  function WithoutSpace(s: string): string {
    if s == "" then "" else (if IsSpace(s[0]) then "" else [s[0]]) + WithoutSpace(s[1..])
  }

  /** The words of a text, one after the other, are the text without its white space. */
  lemma {:induction false} WordsAreTheText(cur: string, s: string)
    ensures Concat(Words(cur, s)) == cur + WithoutSpace(s)
    decreases s
  {
    if s == "" {
      assert Concat(OneIf(cur)) == cur;
    } else if IsSpace(s[0]) {
      WordsAreTheText("", s[1..]);
      ConcatOneIf(cur, Words("", s[1..]));
    } else {
      WordsAreTheText(cur + [s[0]], s[1..]);
    }
  }

  lemma ConcatOneIf(w: string, ws: seq<string>)
    ensures Concat(OneIf(w) + ws) == w + Concat(ws)
  {
    if w == "" {
      assert OneIf(w) + ws == ws;
    } else {
      assert (OneIf(w) + ws)[1..] == ws;
    }
  }

  /** No word is empty or holds white space. */
  lemma {:induction false} WordsAreClean(cur: string, s: string)
    requires NoSpace(cur)
    ensures forall w :: w in Words(cur, s) ==> w != "" && NoSpace(w)
    decreases s
  {
    if s == "" {
    } else {
      WordsAreClean(if IsSpace(s[0]) then "" else cur + [s[0]], s[1..]);
    }
  }

  // ---- Cutting a text ----------------------------------------------------------------------------

  /** The unfinished word at the end of a text. */
  function TailRun(s: string): string {
    if s == "" || IsSpace(s[|s| - 1]) then "" else TailRun(s[..|s| - 1]) + [s[|s| - 1]]
  }

  /** The rest of a word at the start of a text. */
  function HeadRun(s: string): string {
    if s == "" || IsSpace(s[0]) then "" else [s[0]] + HeadRun(s[1..])
  }

  lemma {:induction false} HeadRunIsPrefix(s: string)
    ensures HeadRun(s) <= s
    ensures |HeadRun(s)| < |s| ==> IsSpace(s[|HeadRun(s)|])
  {
    if s == "" || IsSpace(s[0]) {
    } else {
      HeadRunIsPrefix(s[1..]);
    }
  }

  /** The finished words of a text that continues `cur`. */
  function Finished(cur: string, s: string): seq<string>
    decreases s
  {
    if s == "" then []
    else if IsSpace(s[0]) then OneIf(cur) + Finished("", s[1..])
    else Finished(cur + [s[0]], s[1..])
  }

  lemma {:induction false} TailRunAfterSpace(x: string, c: char, s: string)
    requires IsSpace(c)
    ensures TailRun(x + [c] + s) == TailRun(s)
  {
    var all := x + [c] + s;
    if s == "" {
      assert all[|all| - 1] == c;
    } else {
      assert all[..|all| - 1] == x + [c] + s[..|s| - 1];
      TailRunAfterSpace(x, c, s[..|s| - 1]);
    }
  }

  lemma {:induction false} TailRunOfRun(s: string)
    requires NoSpace(s)
    ensures TailRun(s) == s
  {
    if s == "" {
    } else {
      TailRunOfRun(s[..|s| - 1]);
    }
  }

  /** The words of `a + b` are the finished words of `a`, then those of `b` continuing its unfinished word. */
  lemma {:induction false} WordsOfAppend(cur: string, a: string, b: string)
    requires NoSpace(cur)
    ensures Words(cur, a + b) == Finished(cur, a) + Words(TailRun(cur + a), b)
    decreases a
  {
    if a == "" {
      assert a + b == b && cur + a == cur;
      TailRunOfRun(cur);
    } else {
      assert (a + b)[1..] == a[1..] + b;
      assert cur + a == cur + [a[0]] + a[1..];
      if IsSpace(a[0]) {
        assert "" + a[1..] == a[1..];
        WordsOfAppend("", a[1..], b);
        TailRunAfterSpace(cur, a[0], a[1..]);
        AppendAssoc(OneIf(cur), Finished("", a[1..]), Words(TailRun(a[1..]), b));
      } else {
        WordsOfAppend(cur + [a[0]], a[1..], b);
      }
    }
  }

  lemma AppendAssoc(x: seq<string>, y: seq<string>, z: seq<string>)
    ensures x + (y + z) == (x + y) + z
  {
  }

  /** A text that continues `cur` first completes it with its head run. */
  lemma {:induction false} WordsFromRun(cur: string, b: string)
    ensures HeadRun(b) <= b
    ensures Words(cur, b) == OneIf(cur + HeadRun(b)) + Words("", b[|HeadRun(b)|..])
    decreases b
  {
    HeadRunIsPrefix(b);
    if b == "" || IsSpace(b[0]) {
      assert cur + HeadRun(b) == cur;
      if b != "" {
        assert b[0..] == b;
      }
    } else {
      WordsFromRun(cur + [b[0]], b[1..]);
      assert cur + [b[0]] + HeadRun(b[1..]) == cur + HeadRun(b);
      assert b[1..][|HeadRun(b[1..])|..] == b[|HeadRun(b)|..];
    }
  }

  // ---- Lower case commutes with everything -------------------------------------------------------

  function LowerEach(ws: seq<string>): seq<string> {
    seq(|ws|, i requires 0 <= i < |ws| => Lower(ws[i]))
  }

  lemma LowerEachAppend(a: seq<string>, b: seq<string>)
    ensures LowerEach(a + b) == LowerEach(a) + LowerEach(b)
  {
  }

  lemma {:induction false} WordsOfLower(cur: string, s: string)
    ensures Words(Lower(cur), Lower(s)) == LowerEach(Words(cur, s))
    decreases s
  {
    if s == "" {
    } else {
      assert Lower(s)[1..] == Lower(s[1..]);
      if IsSpace(s[0]) {
        WordsOfLower("", s[1..]);
        assert Lower("") == "";
        LowerEachAppend(OneIf(cur), Words("", s[1..]));
      } else {
        WordsOfLower(cur + [s[0]], s[1..]);
        assert Lower(cur + [s[0]]) == Lower(cur) + [LowerChar(s[0])];
      }
    }
  }

  lemma {:induction false} TrimLeftOfLower(s: string)
    ensures TrimLeft(Lower(s)) == Lower(TrimLeft(s))
  {
    if s == "" || !IsPunct(s[0]) {
    } else {
      assert Lower(s)[1..] == Lower(s[1..]);
      TrimLeftOfLower(s[1..]);
    }
  }

  lemma {:induction false} TrimRightOfLower(s: string)
    ensures TrimRight(Lower(s)) == Lower(TrimRight(s))
  {
    if s == "" || !IsPunct(s[|s| - 1]) {
    } else {
      assert Lower(s)[..|s| - 1] == Lower(s[..|s| - 1]);
      TrimRightOfLower(s[..|s| - 1]);
    }
  }

  lemma TrimOfLower(s: string)
    ensures Trim(Lower(s)) == Lower(Trim(s))
  {
    TrimLeftOfLower(s);
    TrimRightOfLower(TrimLeft(s));
  }

  // ---- Trimming around a cut ---------------------------------------------------------------------

  /** Something is left of the word after trimming. */
  predicate HasCore(w: string) {
    exists c :: c in w && !IsPunct(c)
  }

  lemma {:induction false} TrimLeftOfPunct(p: string, s: string)
    requires !HasCore(p)
    ensures TrimLeft(p + s) == TrimLeft(s)
  {
    if p == "" {
      assert p + s == s;
    } else {
      assert (p + s)[1..] == p[1..] + s;
      TrimLeftOfPunct(p[1..], s);
    }
  }

  lemma {:induction false} TrimRightOfPunct(s: string, p: string)
    requires !HasCore(p)
    ensures TrimRight(s + p) == TrimRight(s)
  {
    if p == "" {
      assert s + p == s;
    } else {
      assert (s + p)[..|s + p| - 1] == s + p[..|p| - 1];
      TrimRightOfPunct(s, p[..|p| - 1]);
    }
  }

  lemma {:induction false} TrimLeftOfCore(s: string, t: string)
    requires HasCore(s)
    ensures TrimLeft(s + t) == TrimLeft(s) + t
    ensures HasCore(TrimLeft(s))
  {
    if !IsPunct(s[0]) {
    } else {
      assert (s + t)[1..] == s[1..] + t;
      TrimLeftOfCore(s[1..], t);
    }
  }

  lemma {:induction false} TrimRightKeepsCore(s: string)
    requires HasCore(s)
    ensures TrimRight(s) != ""
  {
    if !IsPunct(s[|s| - 1]) {
    } else {
      var c :| c in s && !IsPunct(c);
      assert c in s[..|s| - 1];
      TrimRightKeepsCore(s[..|s| - 1]);
    }
  }

  /** A word disappears in trimming exactly when it is punctuation only. */
  lemma TrimmedAway(w: string)
    ensures Trim(w) == "" <==> !HasCore(w)
  {
    if HasCore(w) {
      TrimLeftOfCore(w, "");
      TrimRightKeepsCore(TrimLeft(w));
    } else {
      TrimLeftOfPunct(w, "");
      assert w + "" == w;
    }
  }

  /** A cut that leaves only punctuation on one side of it does not change the trimmed word. */
  lemma TrimAcrossHarmlessCut(p: string, h: string)
    requires !(HasCore(p) && HasCore(h))
    ensures !HasCore(p) ==> Trim(p + h) == Trim(h)
    ensures !HasCore(h) ==> Trim(p + h) == Trim(p)
  {
    if !HasCore(p) {
      TrimLeftOfPunct(p, h);
    }
    if !HasCore(h) {
      if HasCore(p) {
        TrimLeftOfCore(p, h);
        TrimRightOfPunct(TrimLeft(p), h);
      } else {
        TrimmedAway(p);
        TrimmedAway(h);
      }
    }
  }

  lemma {:induction false} TrimRightOfCore(t: string, s: string)
    requires HasCore(s)
    ensures TrimRight(t + s) == t + TrimRight(s)
  {
    if IsPunct(s[|s| - 1]) {
      var c :| c in s && !IsPunct(c);
      assert c in s[..|s| - 1];
      assert (t + s)[..|t + s| - 1] == t + s[..|s| - 1];
      TrimRightOfCore(t, s[..|s| - 1]);
    } else {
      assert TrimRight(s) == s;
    }
  }

  lemma {:induction false} TrimLeftIsSuffix(s: string) returns (front: string)
    ensures s == front + TrimLeft(s)
  {
    if s != "" && IsPunct(s[0]) {
      front := TrimLeftIsSuffix(s[1..]);
      front := [s[0]] + front;
    } else {
      front := "";
    }
  }

  lemma {:induction false} TrimRightShortens(s: string)
    ensures |TrimRight(s)| <= |s|
  {
    if s == "" || !IsPunct(s[|s| - 1]) {
    } else {
      TrimRightShortens(s[..|s| - 1]);
    }
  }

  /** A word is longer than either of its fragments when both have something left after trimming. */
  lemma TrimOfWhole(p: string, h: string)
    requires HasCore(p) && HasCore(h)
    ensures |Trim(p)| < |Trim(p + h)| && |Trim(h)| < |Trim(p + h)|
  {
    TrimLeftOfCore(p, h);
    TrimRightOfCore(TrimLeft(p), h);
    assert Trim(p + h) == TrimLeft(p) + TrimRight(h);
    TrimRightKeepsCore(h);
    TrimRightShortens(TrimLeft(p));
    var front := TrimLeftIsSuffix(h);
    TrimLeftOfCore(h, "");
    TrimRightOfCore(front, TrimLeft(h));
    TrimRightKeepsCore(TrimLeft(p));
  }
}
