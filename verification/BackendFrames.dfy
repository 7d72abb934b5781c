/** The receive loop of the web back end: packets in, newline-separated frames of accumulated text out. */
module BackendFrames {
  import opened Common
  import opened Ndjson

  /** A packet of the chat service; `content` is the delta of its first choice, if it has choices. */
  datatype Packet = Packet(id: string, source: string, content: Option<string>)

  /** The message that is marshalled into every frame; role and parent id are constant and left out. */
  datatype Frame = Frame(id: string, text: string, delta: string, detail: Option<Packet>, source: string,
                         tokensUsed: nat, tokensSaved: nat)

  /** The JSON encoding: one line without surrounding blanks, which the front end parses back. */
  datatype Codec = Codec(enc: Frame -> string, dec: string -> Option<Frame>)

  ghost predicate Faithful(codec: Codec) {
    forall f :: NL !in codec.enc(f) && Offer(codec.enc(f)) == Some(codec.enc(f)) && codec.dec(codec.enc(f)) == Some(f)
  }

  /** Tokens of the prompt and of a response text together, or None when either count fails. */
  type Counter = string -> Option<nat>

  const REFRESH := 15

  // ---------- what one packet does to the message ----------

  function Absorb(m: Frame, p: Packet): Frame {
    var m1 := if p.id != "" then m.(id := p.id) else m;
    var m2 := if p.source != "" then m1.(source := p.source) else m1;
    match p.content
    case None => m2
    case Some(content) => m2.(delta := content, text := m2.text + content, detail := Some(p))
  }

  /** Saved tokens for an answer from the cache, used tokens for any other. */
  function Charge(m: Frame, count: Counter): Frame {
    match count(m.text)
    case None => m
    case Some(n) => if m.source == "cache" then m.(tokensSaved := n) else m.(tokensUsed := n)
  }

  /** The message after packet number `n`, counting from 1. */
  function OnPacket(m: Frame, p: Packet, n: nat, count: Counter): Frame {
    var m' := Absorb(m, p);
    if n % REFRESH == 0 && m'.source == "llm" then Charge(m', count) else m'
  }

  function Start(id: string): Frame {
    Frame(id, "", "", None, "", 0, 0)
  }

  /** The message after all packets. */
  function Message(id: string, packets: seq<Packet>, count: Counter): Frame {
    if packets == [] then Start(id)
    else OnPacket(Message(id, packets[..|packets| - 1], count), packets[|packets| - 1], |packets|, count)
  }

  /** One frame for each packet. */
  function Frames(id: string, packets: seq<Packet>, count: Counter): (f: seq<Frame>)
    ensures |f| == |packets|
  {
    if packets == [] then []
    else Frames(id, packets[..|packets| - 1], count) + [Message(id, packets, count)]
  }

  function Joined(enc: Frame -> string, frames: seq<Frame>): string {
    if frames == [] then ""
    else if |frames| == 1 then enc(frames[0])
    else Joined(enc, frames[..|frames| - 1]) + [NL] + enc(frames[|frames| - 1])
  }

  datatype Ending = Eof | Failed(body: string)

  /** The response body. */
  function Wire(enc: Frame -> string, id: string, packets: seq<Packet>, count: Counter, ending: Ending): string {
    Joined(enc, Frames(id, packets, count)) +
    match ending
    case Eof => [NL] + enc(Charge(Message(id, packets, count), count))
    case Failed(body) => body
  }

  // ---------- the loop ----------

  class ChatProcess {
    const codec: Codec
    const count: Counter
    var result: Frame
    var firstChunk: bool
    var chunkCount: nat
    var wire: string

    constructor (codec: Codec, count: Counter, id: string)
      ensures this.codec == codec && this.count == count
      ensures Handled(id, [])
    {
      this.codec, this.count := codec, count;
      result, firstChunk, chunkCount, wire := Frame(id, "", "", None, "", 0, 0), true, 0, "";
    }

    method CountTokens()
      modifies this`result
      ensures result == Charge(old(result), count)
    {
      var tokens := count(result.text);
      if tokens.Some? {
        if result.source == "cache" {
          result := result.(tokensSaved := tokens.value);
        } else {
          result := result.(tokensUsed := tokens.value);
        }
      }
    }

    method Take(rsp: Packet)
      modifies this`result
      ensures result == Absorb(old(result), rsp)
    {
      if rsp.id != "" {
        result := result.(id := rsp.id);
      }
      if rsp.source != "" {
        result := result.(source := rsp.source);
      }
      if rsp.content.Some? {
        var content := rsp.content.value;
        assert result.text + "" == result.text;
        result := result.(delta := content);
        if |content| > 0 {
          result := result.(text := result.text + content);
        }
        result := result.(detail := Some(rsp));
      }
    }

    method Write()
      modifies this`firstChunk, this`wire
      ensures !firstChunk && wire == old(wire) + (if old(firstChunk) then "" else [NL]) + codec.enc(result)
    {
      if !firstChunk {
        wire := wire + [NL];
      } else {
        firstChunk := false;
        assert wire + "" == wire;
      }
      wire := wire + codec.enc(result);
    }

    /** The loop has handled these packets. */
    ghost predicate Handled(id: string, packets: seq<Packet>)
      reads this
    {
      && chunkCount == |packets| && firstChunk == (packets == [])
      && result == Message(id, packets, count)
      && wire == Joined(codec.enc, Frames(id, packets, count))
    }

    method Receive(rsp: Packet, ghost id: string, ghost before: seq<Packet>)
      requires Handled(id, before)
      modifies this
      ensures Handled(id, before + [rsp])
    {
      assert (before + [rsp])[..|before|] == before;
      Take(rsp);
      chunkCount := chunkCount + 1;
      if chunkCount % REFRESH == 0 && result.source == "llm" {
        CountTokens();
      }
      assert result == Message(id, before + [rsp], count);
      JoinedStep(codec.enc, Frames(id, before, count), result);
      Write();
    }

    /** Everything the stream delivers, then its end. */
    method Run(id: string, packets: seq<Packet>, ending: Ending)
      requires Handled(id, [])
      modifies this
      ensures wire == Wire(codec.enc, id, packets, count, ending)
    {
      assert packets[..0] == [];
      for k := 0 to |packets|
        invariant Handled(id, packets[..k])
      {
        assert packets[..k + 1] == packets[..k] + [packets[k]];
        Receive(packets[k], id, packets[..k]);
      }
      assert packets[..|packets|] == packets;
      if ending.Failed? {
        wire := wire + ending.body;
        return;
      }
      CountTokens();
      wire := wire + ([NL] + codec.enc(result));
    }
  }

  lemma JoinedStep(enc: Frame -> string, frames: seq<Frame>, f: Frame)
    ensures Joined(enc, frames + [f]) == Joined(enc, frames) + (if frames == [] then "" else [NL]) + enc(f)
  {
  }

  // ---------- accumulated text ----------

  function Content(packets: seq<Packet>): string {
    if packets == [] then ""
    else Content(packets[..|packets| - 1]) + packets[|packets| - 1].content.GetOr("")
  }

  lemma PacketText(m: Frame, p: Packet, n: nat, count: Counter)
    ensures OnPacket(m, p, n, count).text == m.text + p.content.GetOr("")
  {
    assert m.text + "" == m.text;
  }

  /** The message carries all deltas so far, whatever else the packets change. */
  lemma {:induction false} MessageText(id: string, packets: seq<Packet>, count: Counter)
    ensures Message(id, packets, count).text == Content(packets)
  {
    if packets != [] {
      var n := |packets| - 1;
      MessageText(id, packets[..n], count);
      PacketText(Message(id, packets[..n], count), packets[n], n + 1, count);
    }
  }

  lemma {:induction false} FramesAt(id: string, packets: seq<Packet>, count: Counter, i: nat)
    requires i < |packets|
    ensures Frames(id, packets, count)[i] == Message(id, packets[..i + 1], count)
  {
    if i < |packets| - 1 {
      FramesAt(id, packets[..|packets| - 1], count, i);
      assert packets[..|packets| - 1][..i + 1] == packets[..i + 1];
    } else {
      assert packets[..i + 1] == packets;
    }
  }

  /** Each frame repeats the text of every earlier one and goes on from there. */
  lemma {:induction false} FramesGrow(id: string, packets: seq<Packet>, count: Counter, i: nat, j: nat)
    requires i <= j < |packets|
    ensures Frames(id, packets, count)[i].text <= Frames(id, packets, count)[j].text
    decreases j
  {
    FramesAt(id, packets, count, j);
    MessageText(id, packets[..j + 1], count);
    if i < j {
      FramesGrow(id, packets, count, i, j - 1);
      FramesAt(id, packets, count, j - 1);
      MessageText(id, packets[..j], count);
      assert packets[..j + 1][..j] == packets[..j];
    } else {
      FramesAt(id, packets, count, i);
    }
  }

  // ---------- the frames a reader can see ----------

  function Encoded(enc: Frame -> string, frames: seq<Frame>): (lines: seq<string>)
    ensures |lines| == |frames|
  {
    seq(|frames|, i requires 0 <= i < |frames| => enc(frames[i]))
  }

  /** Whatever ends the body, the text after the last newline is not a complete line. */
  lemma {:induction false} SplitJoined(codec: Codec, frames: seq<Frame>)
    requires Faithful(codec) && frames != []
    ensures Split(Joined(codec.enc, frames)) ==
            (Encoded(codec.enc, frames[..|frames| - 1]), codec.enc(frames[|frames| - 1]))
  {
    var init, last := frames[..|frames| - 1], frames[|frames| - 1];
    assert NL !in codec.enc(last);
    if init == [] {
      NoNewline(codec.enc(last));
    } else {
      SplitJoined(codec, init);
      SplitAtNewline(Joined(codec.enc, init), codec.enc(last));
      assert Encoded(codec.enc, init) == Encoded(codec.enc, init[..|init| - 1]) + [codec.enc(init[|init| - 1])];
    }
  }

  /** Frames that can reach the parser: every packet's frame after a normal end, all but the last after a
    * failure. The closing frame with the final token counts never can. */
  lemma LinesOfWire(codec: Codec, id: string, packets: seq<Packet>, count: Counter, ending: Ending)
    requires Faithful(codec) && packets != []
    requires ending.Failed? ==> NL !in ending.body
    ensures var frames := Frames(id, packets, count);
            Lines(Wire(codec.enc, id, packets, count, ending)) ==
            Encoded(codec.enc, if ending.Eof? then frames else frames[..|frames| - 1])
  {
    var frames := Frames(id, packets, count);
    var body := Joined(codec.enc, frames);
    SplitJoined(codec, frames);
    match ending {
      case Eof =>
        var closing := codec.enc(Charge(Message(id, packets, count), count));
        assert NL !in closing;
        assert body + ([NL] + closing) == body + [NL] + closing;
        SplitAtNewline(body, closing);
        assert Encoded(codec.enc, frames) ==
               Encoded(codec.enc, frames[..|frames| - 1]) + [codec.enc(frames[|frames| - 1])];
      case Failed(rest) =>
        SplitAppend(body, rest);
        assert NL !in codec.enc(frames[|frames| - 1]);
        NoNewline(codec.enc(frames[|frames| - 1]) + rest);
        assert Encoded(codec.enc, frames[..|frames| - 1]) + [] == Encoded(codec.enc, frames[..|frames| - 1]);
    }
  }

  /** A stream without packets: the body starts with an empty line, so no frame is ever parsed. */
  lemma EmptyStreamShowsNothing(codec: Codec, id: string, count: Counter)
    requires Faithful(codec)
    ensures Lines(Wire(codec.enc, id, [], count, Eof)) == [""] && Offer("") == None
  {
    var closing := codec.enc(Charge(Start(id), count));
    assert NL !in closing;
    SplitAtNewline("", closing);
    assert "" + ([NL] + closing) == "" + [NL] + closing;
  }

  // ---------- token counts ----------

  predicate AllFrom(packets: seq<Packet>, source: string) {
    forall k | 0 <= k < |packets| :: packets[k].source == source
  }

  /** For an answer from the cache no frame before the closing one carries a count. */
  lemma {:induction false} NoCountsFromCache(id: string, packets: seq<Packet>, count: Counter)
    requires AllFrom(packets, "cache")
    ensures var m := Message(id, packets, count);
            m.tokensUsed == 0 && m.tokensSaved == 0 && (packets != [] ==> m.source == "cache")
  {
    if packets != [] {
      NoCountsFromCache(id, packets[..|packets| - 1], count);
    }
  }

  /** An answer from the model is never counted as saved. */
  lemma {:induction false} NothingSavedByModel(id: string, packets: seq<Packet>, count: Counter)
    requires AllFrom(packets, "llm")
    ensures var m := Message(id, packets, count);
            m.tokensSaved == 0 && Charge(m, count).tokensSaved == 0 && (packets != [] ==> m.source == "llm")
  {
    if packets != [] {
      NothingSavedByModel(id, packets[..|packets| - 1], count);
    }
  }

  /** The saved tokens of a cache hit are counted in the closing frame and reach no parsed frame: what the
    * front end shows stays at zero. */
  lemma SavingsNeverShown(codec: Codec, id: string, packets: seq<Packet>, count: Counter, n: nat)
    requires Faithful(codec) && packets != [] && AllFrom(packets, "cache") && count(Content(packets)) == Some(n)
    ensures Charge(Message(id, packets, count), count).tokensSaved == n
    ensures forall line <- Lines(Wire(codec.enc, id, packets, count, Eof)) ::
              codec.dec(line).Some? && codec.dec(line).value.tokensSaved == 0
  {
    NoCountsFromCache(id, packets, count);
    MessageText(id, packets, count);
    LinesOfWire(codec, id, packets, count, Eof);
    var frames := Frames(id, packets, count);
    forall i | 0 <= i < |frames|
      ensures codec.dec(codec.enc(frames[i])) == Some(frames[i]) && frames[i].tokensSaved == 0 {
      FramesAt(id, packets, count, i);
      NoCountsFromCache(id, packets[..i + 1], count);
    }
  }
}
