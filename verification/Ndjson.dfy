/** The front end's incremental reader of newline-delimited frames, against whole-text parsing. */
module Ndjson {
  import opened Common

  const NL := '\n'

  /** Complete lines of a text and what follows the last newline. */
  function Split(text: string): (seq<string>, string) {
    if text == "" then ([], "")
    else
      var (lines, tail) := Split(text[..|text| - 1]);
      var c := text[|text| - 1];
      if c == NL then (lines + [tail], "") else (lines, tail + [c])
  }

  function Lines(text: string): seq<string> {
    Split(text).0
  }

  function Tail(text: string): string {
    Split(text).1
  }

  /** Parsing can be done in pieces: the tail of the first piece goes in front of the second. */
  lemma {:induction false} SplitAppend(a: string, b: string)
    ensures Split(a + b) == (Lines(a) + Lines(Tail(a) + b), Tail(Tail(a) + b))
  {
    if b == "" {
      assert a + b == a && Tail(a) + b == Tail(a);
      TailHasNoNewline(a);
      NoNewline(Tail(a));
      assert Lines(a) + [] == Lines(a);
    } else {
      var b', c := b[..|b| - 1], b[|b| - 1];
      assert (a + b)[..|a + b| - 1] == a + b';
      assert (Tail(a) + b)[..|Tail(a) + b| - 1] == Tail(a) + b';
      SplitAppend(a, b');
      var more, rest := Lines(Tail(a) + b'), Tail(Tail(a) + b');
      assert (Lines(a) + more) + [rest] == Lines(a) + (more + [rest]);
    }
  }

  lemma {:induction false} TailHasNoNewline(a: string)
    ensures NL !in Tail(a)
  {
    if a != "" {
      TailHasNoNewline(a[..|a| - 1]);
    }
  }

  lemma {:induction false} NoNewline(a: string)
    requires NL !in a
    ensures Split(a) == ([], a)
  {
    if a != "" {
      var a', c := a[..|a| - 1], a[|a| - 1];
      NoNewline(a');
      assert c in a && a == a' + [c];
    }
  }

  /** A text, then a newline, then a last piece without newlines. */
  lemma SplitAtNewline(head: string, tail: string)
    requires NL !in tail
    ensures Split(head + [NL] + tail) == (Lines(head) + [Tail(head)], tail)
  {
    assert (head + [NL])[..|head|] == head;
    assert Split(head + [NL]) == (Lines(head) + [Tail(head)], "");
    SplitAppend(head + [NL], tail);
    assert "" + tail == tail;
    NoNewline(tail);
    assert Lines(head) + [Tail(head)] + [] == Lines(head) + [Tail(head)];
  }

  // ---------- JavaScript string operations ----------

  /** Position of the last newline at or before `from`, or -1. */
  function LastNewlineUpTo(s: string, from: int): (r: int)
    ensures -1 <= r < |s|
    ensures r >= 0 ==> s[r] == NL && r <= from
    ensures forall k | r < k <= from && k < |s| :: k >= 0 ==> s[k] != NL
    decreases from + 1
  {
    if from < 0 || |s| == 0 then -1
    else if from >= |s| then LastNewlineUpTo(s, |s| - 1)
    else if s[from] == NL then from
    else LastNewlineUpTo(s, from - 1)
  }

  /** lastIndexOf with a start position: a negative start counts as 0. */
  function LastIndexOf(s: string, from: int): (r: int)
    ensures -1 <= r < |s|
    ensures r >= 0 ==> s[r] == NL
    ensures forall k | r < k <= from && k < |s| :: k >= 0 ==> s[k] != NL
  {
    LastNewlineUpTo(s, if from < 0 then 0 else from)
  }

  lemma CutOut(s: string, i: nat)
    requires i < |s|
    ensures s == s[..i] + [s[i]] + s[i + 1..]
  {
  }

  lemma NoneBehind(s: string, last: int)
    requires -1 <= last < |s| && forall k | last < k < |s| :: k >= 0 ==> s[k] != NL
    ensures NL !in s[last + 1..]
  {
  }

  /** The lines of a text whose last newline stands at `last`. */
  lemma LinesByLast(s: string, last: nat)
    requires last < |s| && s[last] == NL && NL !in s[last + 1..]
    ensures Lines(s) == Lines(s[..last]) + [Tail(s[..last])] && Tail(s) == s[last + 1..]
  {
    CutOut(s, last);
    SplitAtNewline(s[..last], s[last + 1..]);
  }

  lemma FirstLine(s: string)
    requires s != "" && s[0] == NL && NL !in s[1..]
    ensures Lines(s) == [""] && LastIndexOf(s, -1) == 0
  {
    LinesByLast(s, 0);
    assert s[..0] == "";
    assert Lines("") + [Tail("")] == [""];
  }

  /** The last complete line and the rest, found by the two searches of the reader. */
  lemma LastLineByIndex(s: string, last: int, prev: int)
    requires last == LastIndexOf(s, |s|) && prev == LastIndexOf(s, last - 1)
    ensures last < 0 ==> Split(s) == ([], s)
    ensures last >= 0 ==> Lines(s) != [] && Tail(s) == s[last + 1..]
    ensures last > 0 ==> prev < last && Lines(s)[|Lines(s)| - 1] == s[prev + 1..last]
    ensures last == 0 ==> prev == 0 && Lines(s) == [""]
  {
    NoneBehind(s, last);
    if last < 0 {
      assert s[last + 1..] == s;
      NoNewline(s);
    } else if last == 0 {
      LinesByLast(s, last);
      FirstLine(s);
    } else {
      LinesByLast(s, last);
      LastPiece(s, last, prev);
    }
  }

  lemma LastPiece(s: string, last: int, prev: int)
    requires 0 < last <= |s| && prev == LastIndexOf(s, last - 1)
    ensures prev < last && Tail(s[..last]) == s[prev + 1..last]
  {
    var head := s[..last];
    var piece := s[prev + 1..last];
    if prev < 0 {
      assert head == piece;
      NoNewline(piece);
    } else {
      assert head == s[..prev] + [NL] + piece;
      SplitAtNewline(s[..prev], piece);
    }
  }

  /** The two searches: the last complete line, if there is one, and what follows it. */
  method LastLine(pieced: string) returns (line: Option<string>, rest: string)
    ensures rest == Tail(pieced)
    ensures line == if Lines(pieced) == [] then None else Some(Lines(pieced)[|Lines(pieced)| - 1])
  {
    var last := LastIndexOf(pieced, |pieced|);
    var prev := LastIndexOf(pieced, last - 1);
    LastLineByIndex(pieced, last, prev);
    if last == -1 {
      return None, pieced;
    }
    // slice with its start beyond its end is empty
    return Some(if prev + 1 <= last then pieced[prev + 1..last] else ""), pieced[last + 1..];
  }

  // ---------- the reader ----------

  /** What the parser is given for a completed line: blank lines are skipped. */
  function Offer(line: string): Option<string> {
    if Trim(line) == "" then None else Some(Trim(line))
  }

  /** A line is skipped exactly when it is blank; otherwise it is offered without the white space around it. */
  lemma OfferExactly(line: string) returns (u: string, v: string)
    ensures Offer(line).None? <==> AllBlank(line)
    ensures Offer(line).Some? ==> line == u + Offer(line).value + v && AllBlank(u) && AllBlank(v)
    ensures Offer(line).Some? ==> var x := Offer(line).value; x != "" && !Blank(x[0]) && !Blank(x[|x| - 1])
  {
    u, v := TrimExactly(line);
    if Trim(line) != "" {
      assert line[|u|] == Trim(line)[0];
    }
  }

  /** The closure variables of the reader; `seen` is the text it was last called with. */
  class Reader {
    var offset: nat
    var carry: string
    ghost var seen: string

    ghost predicate Valid()
      reads this
    {
      offset == |seen| && carry == Tail(seen)
    }

    constructor ()
      ensures Valid() && seen == ""
    {
      offset, carry, seen := 0, "", "";
    }

    /** One progress event, for any text. The text read is the carried half line and what lies behind the old
      * offset, or the whole text if it is shorter than before; the parser is given its last complete line. */
    method OnProgress(text: string) returns (frame: Option<string>)
      modifies this
      ensures var pieced := if |text| < old(offset) then text else old(carry) + text[old(offset)..];
              carry == Tail(pieced) && frame == LastOffer(Lines(pieced))
      ensures offset == |text| && seen == text
    {
      if |text| < offset {
        offset, carry := 0, "";
      }
      assert "" + text[0..] == text;
      var pieced := carry + text[offset..];
      offset, seen := |text|, text;
      var line;
      line, carry := LastLine(pieced);
      if line.None? || Trim(line.value) == "" {
        return None;
      }
      return Some(Trim(line.value));
    }

    /** For a text that extends the previous one, or a shorter one after a restart, the new state depends on
      * the text alone, and the parser is given the last complete line of the whole text exactly when the
      * event completed one. */
    method OnGrowth(text: string) returns (frame: Option<string>)
      requires Valid()
      requires seen <= text || |text| < |seen|
      modifies this
      ensures Valid() && seen == text
      ensures var before := if |text| < |old(seen)| then "" else old(seen);
              frame == if |Lines(text)| > |Lines(before)| then Offer(Lines(text)[|Lines(text)| - 1]) else None
    {
      ghost var before := if |text| < |seen| then "" else seen;
      assert text == before + text[|before|..];
      SplitAppend(before, text[|before|..]);
      assert "" + text[0..] == text;
      frame := OnProgress(text);
    }
  }

  /** What the parser is given of some completed lines. */
  function LastOffer(lines: seq<string>): Option<string> {
    if lines == [] then None else Offer(lines[|lines| - 1])
  }

  /** A text that replaces another one without being shorter is not read from the beginning: the carried half
    * line is right afterwards exactly when the new part holds a newline, or the half lines agree. */
  lemma ReplacedExactly(seen: string, text: string)
    requires |seen| <= |text|
    ensures var rest := text[|seen|..];
            Tail(Tail(seen) + rest) == Tail(text) <==> NL in rest || Tail(seen) == Tail(text[..|seen|])
  {
    var head, rest := text[..|seen|], text[|seen|..];
    assert text == head + rest;
    SplitAppend(head, rest);
    TailHasNoNewline(seen);
    TailHasNoNewline(head);
    if NL in rest {
      TailIgnores(Tail(seen), rest);
      TailIgnores(Tail(head), rest);
    } else {
      NoNewline(Tail(seen) + rest);
      NoNewline(Tail(head) + rest);
      if Tail(seen) + rest == Tail(head) + rest {
        assert |Tail(seen)| == |Tail(head)|;
        assert Tail(seen) == (Tail(seen) + rest)[..|Tail(seen)|] == Tail(head);
      }
    }
  }

  lemma {:induction false} TailIgnores(a: string, rest: string)
    requires NL in rest
    ensures Tail(a + rest) == Tail(rest)
  {
    var n := |rest| - 1;
    assert (a + rest)[..|a| + n] == a + rest[..n];
    if rest[n] != NL {
      assert NL in rest[..n];
      TailIgnores(a, rest[..n]);
    }
  }

  // ---------- whole responses ----------

  /** The response lengths at the progress events never shrink. */
  ghost predicate Growing(text: string, cuts: seq<nat>) {
    && (forall i | 0 <= i < |cuts| :: cuts[i] <= |text|)
    && (forall i, j | 0 <= i < j < |cuts| :: cuts[i] <= cuts[j])
  }

  /** Lines completed when the response has grown to `n` characters. */
  function LinesAt(text: string, n: nat): nat
    requires n <= |text|
  {
    |Lines(text[..n])|
  }

  lemma LinesMonotone(text: string, m: nat, n: nat)
    requires m <= n <= |text|
    ensures Lines(text[..m]) <= Lines(text[..n]) <= Lines(text)
  {
    assert text[..n] == text[..m] + text[m..n];
    SplitAppend(text[..m], text[m..n]);
    assert text == text[..n] + text[n..];
    SplitAppend(text[..n], text[n..]);
  }

  /** Lines completed before the first event and after each one. */
  function Counts(text: string, cuts: seq<nat>): (counts: seq<nat>)
    requires forall i | 0 <= i < |cuts| :: cuts[i] <= |text|
    ensures |counts| == |cuts| + 1
  {
    [0] + seq(|cuts|, k requires 0 <= k < |cuts| => LinesAt(text, cuts[k]))
  }

  ghost predicate Rising(counts: seq<nat>, bound: nat) {
    && (forall i, j | 0 <= i < j < |counts| :: counts[i] <= counts[j])
    && (forall i | 0 <= i < |counts| :: counts[i] <= bound)
  }

  lemma CountsRise(text: string, cuts: seq<nat>)
    requires Growing(text, cuts)
    ensures Rising(Counts(text, cuts), |Lines(text)|)
  {
    var counts := Counts(text, cuts);
    forall i, j | 0 <= i < j < |counts| ensures counts[i] <= counts[j] {
      LinesMonotone(text, if i == 0 then 0 else cuts[i - 1], cuts[j - 1]);
    }
    forall i | 0 <= i < |counts| ensures counts[i] <= |Lines(text)| {
      LinesMonotone(text, if i == 0 then 0 else cuts[i - 1], |text|);
    }
  }

  /** Event `k` completes a line, and the last one it completes is line `i`, which is not blank. */
  ghost predicate Completes(lines: seq<string>, counts: seq<nat>, k: nat, i: nat)
    requires k + 1 < |counts|
  {
    counts[k] <= i < |lines| && i + 1 == counts[k + 1] && Offer(lines[i]).Some?
  }

  /** The lines handed to the parser over all events. */
  ghost function Handed(lines: seq<string>, counts: seq<nat>): (h: seq<nat>)
    ensures forall a | 0 <= a < |h| :: h[a] < |lines|
  {
    if |counts| < 2 then []
    else
      var k := |counts| - 2;
      var rest := Handed(lines, counts[..k + 1]);
      if counts[k + 1] > 0 && Completes(lines, counts, k, counts[k + 1] - 1) then rest + [counts[k + 1] - 1] else rest
  }

  /** Handed lines move strictly forward. */
  lemma {:induction false} HandedForward(lines: seq<string>, counts: seq<nat>)
    requires counts != [] && Rising(counts, |lines|)
    ensures forall a, b | 0 <= a < b < |Handed(lines, counts)| :: Handed(lines, counts)[a] < Handed(lines, counts)[b]
    ensures forall a | 0 <= a < |Handed(lines, counts)| :: Handed(lines, counts)[a] < counts[|counts| - 1]
  {
    if |counts| >= 2 {
      var n := |counts| - 2;
      var init := counts[..n + 1];
      HandedForward(lines, init);
      var before, h := Handed(lines, init), Handed(lines, counts);
      assert init[|init| - 1] == counts[n];
      forall a, b | 0 <= a < b < |h| ensures h[a] < h[b] {
        assert h[a] == before[a] < counts[n];
        if b < |before| {
          assert before[a] < before[b] == h[b];
        } else {
          assert h == before + [counts[n + 1] - 1] && Completes(lines, counts, n, counts[n + 1] - 1);
        }
      }
    }
  }

  /** The handed lines are exactly the last lines completed by some event, blank ones left out. */
  lemma {:induction false} HandedExactly(lines: seq<string>, counts: seq<nat>, i: nat)
    ensures i in Handed(lines, counts) <==> exists k: nat :: k + 1 < |counts| && Completes(lines, counts, k, i)
  {
    if |counts| >= 2 {
      var n := |counts| - 2;
      var init := counts[..n + 1];
      HandedExactly(lines, init, i);
      assert forall k: nat | k < n :: Completes(lines, counts, k, i) == Completes(lines, init, k, i);
      if i in Handed(lines, init) {
        var k: nat :| k + 1 < |init| && Completes(lines, init, k, i);
        assert Completes(lines, counts, k, i);
      } else if Completes(lines, counts, n, i) {
        assert i in Handed(lines, counts);
      }
    }
  }

  /** Once a response has ended, the last line handed over is its last complete line. */
  lemma {:induction false} LastHanded(lines: seq<string>, counts: seq<nat>)
    requires counts != [] && Rising(counts, |lines|)
    requires counts[0] < counts[|counts| - 1] == |lines| && Offer(lines[|lines| - 1]).Some?
    ensures var h := Handed(lines, counts); h != [] && h[|h| - 1] == |lines| - 1
  {
    var n := |counts| - 2;
    if counts[n] == counts[n + 1] {
      LastHanded(lines, counts[..n + 1]);
    } else {
      assert Completes(lines, counts, n, counts[n + 1] - 1);
    }
  }

  /** These frames are what the parser is given of these lines. */
  ghost predicate Given(lines: seq<string>, h: seq<nat>, frames: seq<string>) {
    && |frames| == |h|
    && forall a | 0 <= a < |h| :: h[a] < |lines| && Offer(lines[h[a]]) == Some(frames[a])
  }

  lemma HandedMore(lines: seq<string>, more: seq<nat>, k: nat, now: nat)
    requires |more| == k + 2 && more[k + 1] == now
    ensures Handed(lines, more) == if now > 0 && Completes(lines, more, k, now - 1)
                                   then Handed(lines, more[..k + 1]) + [now - 1] else Handed(lines, more[..k + 1])
  {
  }

  lemma GivenMore(lines: seq<string>, h: seq<nat>, h': seq<nat>, frames: seq<string>, n: int, frame: Option<string>)
    requires Given(lines, h, frames)
    requires if frame.Some? then 0 <= n < |lines| && Offer(lines[n]) == frame && h' == h + [n] else h' == h
    ensures Given(lines, h', if frame.Some? then frames + [frame.value] else frames)
  {
  }

  /** What event `k` adds to the lines handed over. */
  lemma HandedNext(lines: seq<string>, counts: seq<nat>, now: nat)
    requires counts != [] && counts[|counts| - 1] <= now <= |lines|
    ensures var h := Handed(lines, counts);
            Handed(lines, counts + [now]) ==
            if now > counts[|counts| - 1] && Offer(lines[now - 1]).Some? then h + [now - 1] else h
  {
    var more, k := counts + [now], |counts| - 1;
    assert more[..k + 1] == counts;
    HandedMore(lines, more, k, now);
    CompletesExactly(lines, more, k, now);
  }

  lemma CompletesExactly(lines: seq<string>, more: seq<nat>, k: nat, now: nat)
    requires |more| == k + 2 && more[k + 1] == now && more[k] <= now <= |lines|
    ensures now > 0 && Completes(lines, more, k, now - 1) <==> now > more[k] && Offer(lines[now - 1]).Some?
  {
  }

  lemma GivenStep(lines: seq<string>, counts: seq<nat>, now: nat, frames: seq<string>, frame: Option<string>)
    requires counts != [] && Given(lines, Handed(lines, counts), frames) && counts[|counts| - 1] <= now <= |lines|
    requires frame == if now > counts[|counts| - 1] then Offer(lines[now - 1]) else None
    ensures Given(lines, Handed(lines, counts + [now]), if frame.Some? then frames + [frame.value] else frames)
  {
    HandedNext(lines, counts, now);
    GivenMore(lines, Handed(lines, counts), Handed(lines, counts + [now]), frames, now - 1, frame);
  }

  /** One event on a response already read up to `reader.seen`. */
  method NextEvent(reader: Reader, text: string, n: nat) returns (frame: Option<string>)
    requires reader.Valid() && reader.seen <= text && |reader.seen| <= n <= |text|
    modifies reader
    ensures reader.Valid() && reader.seen == text[..n]
    ensures |Lines(old(reader.seen))| <= LinesAt(text, n) <= |Lines(text)|
    ensures frame
         == if LinesAt(text, n) > |Lines(old(reader.seen))| then Offer(Lines(text)[LinesAt(text, n) - 1]) else None
  {
    LinesMonotone(text, |reader.seen|, n);
    assert text[..|reader.seen|] == reader.seen;
    frame := reader.OnGrowth(text[..n]);
  }

  lemma CountsStep(text: string, cuts: seq<nat>, k: nat)
    requires k < |cuts| && forall i | 0 <= i < |cuts| :: cuts[i] <= |text|
    ensures Counts(text, cuts[..k + 1]) == Counts(text, cuts[..k]) + [LinesAt(text, cuts[k])]
  {
  }

  /** The size of the response after `k` events. */
  function SizeAt(cuts: seq<nat>, k: nat): nat
    requires k <= |cuts|
  {
    if k == 0 then 0 else cuts[k - 1]
  }

  /** Event `k`: one more line count, and perhaps one more frame. */
  method ReadEvent(reader: Reader, text: string, cuts: seq<nat>, k: nat, frames: seq<string>)
    returns (frames': seq<string>)
    requires Growing(text, cuts) && k < |cuts| && reader.Valid() && reader.seen == text[..SizeAt(cuts, k)]
    requires Given(Lines(text), Handed(Lines(text), Counts(text, cuts[..k])), frames)
    modifies reader
    ensures reader.Valid() && reader.seen == text[..SizeAt(cuts, k + 1)]
    ensures Given(Lines(text), Handed(Lines(text), Counts(text, cuts[..k + 1])), frames')
  {
    ghost var counts := Counts(text, cuts[..k]);
    assert counts[k] == |Lines(reader.seen)| by {
      assert text[..0] == "";
    }
    var frame := NextEvent(reader, text, cuts[k]);
    GivenStep(Lines(text), counts, LinesAt(text, cuts[k]), frames, frame);
    CountsStep(text, cuts, k);
    frames' := if frame.Some? then frames + [frame.value] else frames;
  }

  /** Feed every event of a growing response to a new reader and collect what reaches the parser. */
  method ReadAll(text: string, cuts: seq<nat>) returns (frames: seq<string>)
    requires Growing(text, cuts)
    ensures Given(Lines(text), Handed(Lines(text), Counts(text, cuts)), frames)
  {
    var reader := new Reader();
    frames := [];
    assert Handed(Lines(text), Counts(text, cuts[..0])) == [];
    for k := 0 to |cuts|
      invariant reader.Valid() && fresh(reader) && reader.seen == text[..SizeAt(cuts, k)]
      invariant Given(Lines(text), Handed(Lines(text), Counts(text, cuts[..k])), frames)
    {
      frames := ReadEvent(reader, text, cuts, k, frames);
    }
    assert cuts[..|cuts|] == cuts;
  }
}
