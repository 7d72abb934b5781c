/** Runs of characters of one kind in a text: its words, by whatever counts as a word character. */
module Runs {
  import opened Common

  /** The runs of a text before its last separator, and the run it ends with, if any. */
  function Scan(p: char -> bool, text: string): (seq<string>, string) {
    if text == "" then ([], "") else Step(p, Scan(p, text[..|text| - 1]), text[|text| - 1])
  }

  /** One more character. */
  function Step(p: char -> bool, st: (seq<string>, string), c: char): (seq<string>, string) {
    if p(c) then (st.0, st.1 + [c])
    else if st.1 == "" then (st.0, "")
    else (st.0 + [st.1], "")
  }

  function AllRuns(p: char -> bool, text: string): seq<string> {
    var (runs, current) := Scan(p, text);
    if current == "" then runs else runs + [current]
  }

  ghost predicate Solid(p: char -> bool, s: string) {
    forall k | 0 <= k < |s| :: p(s[k])
  }

  /** The current word is the longest run of such characters at the end. */
  lemma {:induction false} CurrentRun(p: char -> bool, text: string)
    ensures var current := Scan(p, text).1;
            var n := |text| - |current|;
            n >= 0 && text[n..] == current && Solid(p, current) && (n == 0 || !p(text[n - 1]))
  {
    if text != "" {
      var init, c := text[..|text| - 1], text[|text| - 1];
      CurrentRun(p, init);
      if p(c) {
        var n := |init| - |Scan(p, init).1|;
        assert Scan(p, text).1 == Scan(p, init).1 + [c];
        assert text[n..] == init[n..] + [c];
      } else {
        assert Scan(p, text).1 == "";
      }
    }
  }

  predicate RunAt(p: char -> bool, w: string, text: string, i: nat) {
    OccursAt(text, w, i) && (i == 0 || !p(text[i - 1])) && (i + |w| == |text| || !p(text[i + |w|]))
  }

  /** A match in a text is a match in the text without its last character, unless it reaches the end. */
  lemma RunInInit(p: char -> bool, w: string, text: string, i: nat)
    requires w != "" && Solid(p, w) && text != ""
    ensures var init, c := text[..|text| - 1], text[|text| - 1];
            && (i + |w| < |init| ==> RunAt(p, w, text, i) == RunAt(p, w, init, i))
            && (i + |w| == |init| ==> RunAt(p, w, text, i) == (RunAt(p, w, init, i) && !p(c)))
  {
    var init := text[..|text| - 1];
    if i + |w| <= |init| {
      assert text[i..i + |w|] == init[i..i + |w|];
    }
  }

  /** Two runs that end with the text and cannot be extended start together. */
  lemma SameRun(p: char -> bool, text: string, i: nat, n: nat)
    requires i <= |text| && n <= |text|
    requires forall k | i <= k < |text| :: p(text[k])
    requires forall k | n <= k < |text| :: p(text[k])
    requires (i > 0 ==> !p(text[i - 1])) && (n > 0 ==> !p(text[n - 1]))
    ensures i == n
  {
  }

  /** A match at the very end is the current word. */
  lemma EndIsCurrent(p: char -> bool, w: string, text: string, i: nat)
    requires w != "" && Solid(p, w) && i + |w| == |text| && RunAt(p, w, text, i)
    ensures w == Scan(p, text).1
  {
    CurrentRun(p, text);
    var current := Scan(p, text).1;
    var n := |text| - |current|;
    assert text[i..i + |w|] == text[i..];
    forall k | i <= k < |text| ensures p(text[k]) {
      assert text[k] == w[k - i];
    }
    forall k | n <= k < |text| ensures p(text[k]) {
      assert text[k] == current[k - n];
    }
    SameRun(p, text, i, n);
  }

  lemma CurrentIsEnd(p: char -> bool, text: string)
    ensures var current := Scan(p, text).1;
            |current| <= |text| && RunAt(p, current, text, |text| - |current|)
  {
    CurrentRun(p, text);
    var n := |text| - |Scan(p, text).1|;
    assert text[n..n + |Scan(p, text).1|] == text[n..];
  }

  lemma {:induction false} EarlierRuns(p: char -> bool, w: string, text: string)
    requires w != "" && Solid(p, w)
    ensures w in Scan(p, text).0 <==> exists i: nat | i + |w| < |text| :: RunAt(p, w, text, i)
  {
    if text != "" {
      var init := text[..|text| - 1];
      EarlierRuns(p, w, init);
      CurrentIsEnd(p, init);
      if w in Scan(p, init).0 {
        var i: nat :| i + |w| < |init| && RunAt(p, w, init, i);
        RunInInit(p, w, text, i);
      } else if w in Scan(p, text).0 {
        RunInInit(p, w, text, |init| - |w|);
      }
      if i: nat :| i + |w| < |text| && RunAt(p, w, text, i) {
        RunInInit(p, w, text, i);
        if i + |w| == |init| {
          EndIsCurrent(p, w, init, i);
        }
      }
    }
  }

  /** A block of such characters stands in a text with other characters, or nothing, on both sides exactly when
    * it is one of the text's runs. */
  lemma RunExactly(p: char -> bool, w: string, text: string)
    requires w != "" && Solid(p, w)
    ensures (exists i: nat :: RunAt(p, w, text, i)) <==> w in AllRuns(p, text)
  {
    EarlierRuns(p, w, text);
    CurrentIsEnd(p, text);
    if i: nat :| RunAt(p, w, text, i) {
      if i + |w| == |text| {
        EndIsCurrent(p, w, text, i);
      }
    }
  }

  /** The text is something, the block, and something else, and no such character touches the block. */
  predicate Flanked(p: char -> bool, text: string, u: string, w: string, v: string) {
    text == u + w + v && (u == "" || !p(u[|u| - 1])) && (v == "" || !p(v[0]))
  }

  lemma FlankedAt(p: char -> bool, text: string, u: string, w: string, v: string)
    requires Flanked(p, text, u, w, v)
    ensures RunAt(p, w, text, |u|)
  {
    assert u != "" ==> text[|u| - 1] == u[|u| - 1];
    assert v != "" ==> text[|u| + |w|] == v[0];
  }

  lemma AtIsFlanked(p: char -> bool, text: string, w: string, i: nat)
    requires RunAt(p, w, text, i)
    ensures Flanked(p, text, text[..i], w, text[i + |w|..])
  {
  }

  // ---------- scanning from the front ----------

  /** Scanning on from a state. */
  function ScanOn(p: char -> bool, st: (seq<string>, string), text: string): (seq<string>, string)
    decreases text
  {
    if text == "" then st else ScanOn(p, Step(p, st, text[0]), text[1..])
  }

  lemma {:induction false} ScanOnSnoc(p: char -> bool, st: (seq<string>, string), text: string, c: char)
    ensures ScanOn(p, st, text + [c]) == Step(p, ScanOn(p, st, text), c)
    decreases text
  {
    if text != "" {
      assert (text + [c])[1..] == text[1..] + [c];
      ScanOnSnoc(p, Step(p, st, text[0]), text[1..], c);
    }
  }

  lemma {:induction false} ScanFromFront(p: char -> bool, text: string)
    ensures ScanOn(p, ([], ""), text) == Scan(p, text)
  {
    if text != "" {
      var init, c := text[..|text| - 1], text[|text| - 1];
      ScanFromFront(p, init);
      assert text == init + [c];
      ScanOnSnoc(p, ([], ""), init, c);
    }
  }
}
