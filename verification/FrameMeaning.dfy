/** What stands in a frame, in terms of the packets received so far. */
module FrameMeaning {
  import opened Common
  import opened BackendFrames
  import Ndjson

  // ---------- the last value given ----------

  /** Value `k` is the last one present. */
  ghost predicate LastAt<T>(values: seq<Option<T>>, k: nat) {
    k < |values| && values[k].Some? && forall j | k < j < |values| :: values[j].None?
  }

  /** The last value present, or the default. */
  ghost predicate LastGiven<T>(values: seq<Option<T>>, default: T, x: T) {
    if exists k: nat :: LastAt(values, k) then exists k: nat :: LastAt(values, k) && values[k] == Some(x)
    else x == default
  }

  lemma NoneBehind<T>(values: seq<Option<T>>, k: nat)
    ensures LastAt(values + [None], k) <==> LastAt(values, k)
  {
    var more := values + [None];
    assert more[|values|] == None && forall j | 0 <= j < |values| :: more[j] == values[j];
  }

  lemma LastGivenMore<T>(values: seq<Option<T>>, default: T, x: T, v: Option<T>)
    requires LastGiven(values, default, x)
    ensures LastGiven(values + [v], default, v.GetOr(x))
  {
    if v.Some? {
      assert LastAt(values + [v], |values|);
    } else {
      forall k: nat ensures LastAt(values + [v], k) == LastAt(values, k) {
        NoneBehind(values, k);
      }
    }
  }

  lemma LastGivenUnique<T>(values: seq<Option<T>>, default: T, x: T, y: T)
    requires LastGiven(values, default, x)
    ensures LastGiven(values, default, y) <==> x == y
  {
    if LastGiven(values, default, y) && exists k: nat :: LastAt(values, k) {
      var k: nat :| LastAt(values, k) && values[k] == Some(x);
      var l: nat :| LastAt(values, l) && values[l] == Some(y);
    }
  }

  // ---------- names ----------

  function Present(s: string): Option<string> {
    if s == "" then None else Some(s)
  }

  /** The identifiers and the sources that the packets name. */
  function Ids(packets: seq<Packet>): seq<Option<string>> {
    seq(|packets|, i requires 0 <= i < |packets| => Present(packets[i].id))
  }

  function Sources(packets: seq<Packet>): seq<Option<string>> {
    seq(|packets|, i requires 0 <= i < |packets| => Present(packets[i].source))
  }

  lemma NamesSnoc(packets: seq<Packet>)
    requires packets != []
    ensures var n := |packets| - 1;
            && Ids(packets) == Ids(packets[..n]) + [Present(packets[n].id)]
            && Sources(packets) == Sources(packets[..n]) + [Present(packets[n].source)]
  {
  }

  lemma NamesStep(id: string, packets: seq<Packet>, count: Counter)
    requires packets != []
    ensures var n := |packets| - 1;
            var before, m, p := Message(id, packets[..n], count), Message(id, packets, count), packets[n];
            m.id == Present(p.id).GetOr(before.id) && m.source == Present(p.source).GetOr(before.source)
  {
  }

  lemma {:induction false} IdExactly(id: string, packets: seq<Packet>, count: Counter)
    ensures LastGiven(Ids(packets), id, Message(id, packets, count).id)
  {
    if packets != [] {
      var init, p := packets[..|packets| - 1], packets[|packets| - 1];
      IdExactly(id, init, count);
      NamesStep(id, packets, count);
      NamesSnoc(packets);
      LastGivenMore(Ids(init), id, Message(id, init, count).id, Present(p.id));
    }
  }

  lemma {:induction false} SourceExactly(id: string, packets: seq<Packet>, count: Counter)
    ensures LastGiven(Sources(packets), "", Message(id, packets, count).source)
  {
    if packets != [] {
      var init, p := packets[..|packets| - 1], packets[|packets| - 1];
      SourceExactly(id, init, count);
      NamesStep(id, packets, count);
      NamesSnoc(packets);
      LastGivenMore(Sources(init), "", Message(id, init, count).source, Present(p.source));
    }
  }

  /** Identifier and source are the last ones that a packet named. */
  lemma NamesExactly(id: string, packets: seq<Packet>, count: Counter)
    ensures LastGiven(Ids(packets), id, Message(id, packets, count).id)
    ensures LastGiven(Sources(packets), "", Message(id, packets, count).source)
  {
    IdExactly(id, packets, count);
    SourceExactly(id, packets, count);
  }

  // ---------- texts ----------

  /** The deltas, and the packets that carry one. */
  function Deltas(packets: seq<Packet>): seq<Option<string>> {
    seq(|packets|, i requires 0 <= i < |packets| => packets[i].content)
  }

  function Speakers(packets: seq<Packet>): seq<Option<Option<Packet>>> {
    seq(|packets|, i requires 0 <= i < |packets| => if packets[i].content.Some? then Some(Some(packets[i])) else None)
  }

  lemma DeltasSnoc(packets: seq<Packet>)
    requires packets != []
    ensures Deltas(packets) == Deltas(packets[..|packets| - 1]) + [packets[|packets| - 1].content]
  {
  }

  lemma SpeakersSnoc(packets: seq<Packet>)
    requires packets != []
    ensures var n := |packets| - 1;
            Speakers(packets) ==
            Speakers(packets[..n]) + [if packets[n].content.Some? then Some(Some(packets[n])) else None]
  {
  }

  lemma SpeechStep(id: string, packets: seq<Packet>, count: Counter)
    requires packets != []
    ensures var n := |packets| - 1;
            var before, m, p := Message(id, packets[..n], count), Message(id, packets, count), packets[n];
            m.delta == p.content.GetOr(before.delta) && m.detail == if p.content.Some? then Some(p) else before.detail
  {
  }

  lemma {:induction false} DeltaExactly(id: string, packets: seq<Packet>, count: Counter)
    ensures LastGiven(Deltas(packets), "", Message(id, packets, count).delta)
  {
    if packets != [] {
      var init, p := packets[..|packets| - 1], packets[|packets| - 1];
      DeltaExactly(id, init, count);
      SpeechStep(id, packets, count);
      DeltasSnoc(packets);
      LastGivenMore(Deltas(init), "", Message(id, init, count).delta, p.content);
    }
  }

  lemma {:induction false} DetailExactly(id: string, packets: seq<Packet>, count: Counter)
    ensures LastGiven(Speakers(packets), None, Message(id, packets, count).detail)
  {
    if packets != [] {
      var init, p := packets[..|packets| - 1], packets[|packets| - 1];
      var speaker: Option<Option<Packet>> := if p.content.Some? then Some(Some(p)) else None;
      DetailExactly(id, init, count);
      SpeechStep(id, packets, count);
      SpeakersSnoc(packets);
      LastGivenMore(Speakers(init), None, Message(id, init, count).detail, speaker);
    }
  }

  /** Delta and detail are those of the last packet with a choice; the text is all their deltas together. */
  lemma SpeechExactly(id: string, packets: seq<Packet>, count: Counter)
    ensures var m := Message(id, packets, count);
            && m.text == Content(packets)
            && LastGiven(Deltas(packets), "", m.delta) && LastGiven(Speakers(packets), None, m.detail)
  {
    MessageText(id, packets, count);
    DeltaExactly(id, packets, count);
    DetailExactly(id, packets, count);
  }

  // ---------- tokens ----------

  /** The count taken after `n` packets: every fifteenth time, for an answer of the model, if it works. */
  ghost function CountAt(packets: seq<Packet>, count: Counter, n: nat): Option<nat>
    requires n <= |packets|
  {
    if n > 0 && n % 15 == 0 && LastGiven(Sources(packets[..n]), "", "llm") then count(Content(packets[..n])) else None
  }

  ghost function Counts(packets: seq<Packet>, count: Counter): seq<Option<nat>> {
    seq(|packets|, i requires 0 <= i < |packets| => CountAt(packets, count, i + 1))
  }

  lemma CountsMore(packets: seq<Packet>, count: Counter)
    requires packets != []
    ensures Counts(packets, count)
         == Counts(packets[..|packets| - 1], count) + [CountAt(packets, count, |packets|)]
  {
    var init := packets[..|packets| - 1];
    forall n: nat | n < |packets| ensures packets[..n] == init[..n] {
    }
  }

  /** What one more packet does to the counts. */
  lemma CountsStep(id: string, packets: seq<Packet>, count: Counter)
    requires packets != []
    ensures var before, m := Message(id, packets[..|packets| - 1], count), Message(id, packets, count);
            && m.tokensSaved == before.tokensSaved
            && m.tokensUsed == CountAt(packets, count, |packets|).GetOr(before.tokensUsed)
  {
    var n := |packets|;
    var before := Message(id, packets[..n - 1], count);
    var m := Absorb(before, packets[n - 1]);
    assert packets[..n] == packets;
    CountsOf(before, packets[n - 1], n, count);
    SourceExactly(id, packets, count);
    MessageText(id, packets, count);
    assert m.source == Message(id, packets, count).source && m.text == Message(id, packets, count).text;
    LastGivenUnique(Sources(packets), "", m.source, "llm");
  }

  lemma CountsOf(before: Frame, p: Packet, n: nat, count: Counter)
    ensures var a, m := Absorb(before, p), OnPacket(before, p, n, count);
            && m.source == a.source && m.text == a.text && m.tokensSaved == before.tokensSaved
            && m.tokensUsed
            == (if n % 15 == 0 && a.source == "llm" then count(a.text) else None).GetOr(before.tokensUsed)
  {
  }

  /** Used tokens are those of the last count; saved tokens are zero in every frame but the closing one. */
  lemma {:induction false} CountsExactly(id: string, packets: seq<Packet>, count: Counter)
    ensures Message(id, packets, count).tokensSaved == 0
    ensures LastGiven(Counts(packets, count), 0, Message(id, packets, count).tokensUsed)
  {
    if packets != [] {
      var init := packets[..|packets| - 1];
      CountsExactly(id, init, count);
      CountsStep(id, packets, count);
      CountsMore(packets, count);
      LastGivenMore(Counts(init, count), 0, Message(id, init, count).tokensUsed,
                    CountAt(packets, count, |packets|));
    }
  }

  // ---------- frames ----------

  /** A frame that tells of these packets and no others. */
  ghost predicate Tells(f: Frame, id: string, packets: seq<Packet>, count: Counter) {
    && LastGiven(Ids(packets), id, f.id) && LastGiven(Sources(packets), "", f.source)
    && f.text == Content(packets)
    && LastGiven(Deltas(packets), "", f.delta) && LastGiven(Speakers(packets), None, f.detail)
    && f.tokensSaved == 0 && LastGiven(Counts(packets, count), 0, f.tokensUsed)
  }

  /** Frame `i` of the body tells of the first `i + 1` packets. */
  lemma FrameExactly(id: string, packets: seq<Packet>, count: Counter, i: nat)
    requires i < |packets|
    ensures Tells(Frames(id, packets, count)[i], id, packets[..i + 1], count)
  {
    var seen := packets[..i + 1];
    FramesAt(id, packets, count, i);
    NamesExactly(id, seen, count);
    SpeechExactly(id, seen, count);
    CountsExactly(id, seen, count);
  }

  /** What follows the last newline of the body is the closing frame. */
  lemma LastPart(codec: Codec, id: string, packets: seq<Packet>, count: Counter)
    requires Faithful(codec)
    ensures Ndjson.Tail(Wire(codec.enc, id, packets, count, Eof))
         == codec.enc(Charge(Message(id, packets, count), count))
  {
    var body, closing := Joined(codec.enc, Frames(id, packets, count)),
                         codec.enc(Charge(Message(id, packets, count), count));
    assert Ndjson.NL !in closing;
    assert body + ([Ndjson.NL] + closing) == body + [Ndjson.NL] + closing;
    Ndjson.SplitAtNewline(body, closing);
  }

  /** The closing frame tells of all packets; beyond that, if the tokens can be counted, they are saved for an
    * answer of the cache and used for any other. */
  lemma ClosingExactly(codec: Codec, id: string, packets: seq<Packet>, count: Counter) returns (m: Frame)
    requires Faithful(codec)
    ensures Tells(m, id, packets, count)
    ensures var closing := match count(Content(packets))
                           case None => m
                           case Some(n) =>
                             if LastGiven(Sources(packets), "", "cache") then m.(tokensSaved := n)
                             else m.(tokensUsed := n);
            Ndjson.Tail(Wire(codec.enc, id, packets, count, Eof)) == codec.enc(closing)
  {
    m := Message(id, packets, count);
    NamesExactly(id, packets, count);
    SpeechExactly(id, packets, count);
    CountsExactly(id, packets, count);
    LastGivenUnique(Sources(packets), "", m.source, "cache");
    LastPart(codec, id, packets, count);
  }
}
