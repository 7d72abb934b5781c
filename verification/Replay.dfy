/** The whole path of an answer: streamed and cached once, replayed later, framed, read and rendered. */
module Replay {
  import opened Common
  import opened ChatStream
  import opened BackendFrames
  import opened SemCacheModel
  import opened CacheRuns
  import opened AnswerCacheObject
  import opened Parsing
  import Decision
  import VectorCodec
  import Ndjson
  import Throttle
  import ZrpcClient
  import ZrpcWriter

  // ---------- what a client accumulates ----------

  function Packets(sent: seq<Chunk>): (packets: seq<Packet>)
    ensures |packets| == |sent|
  {
    seq(|sent|, i requires 0 <= i < |sent| => Packet(sent[i].id, sent[i].source, Some(sent[i].delta)))
  }

  lemma {:induction false} PacketsContent(sent: seq<Chunk>)
    ensures Content(Packets(sent)) == TextOf(sent)
  {
    if sent != [] {
      PacketsContent(sent[..|sent| - 1]);
      assert Packets(sent)[..|sent| - 1] == Packets(sent[..|sent| - 1]);
    }
  }

  /** A response read to its end: the sizes it had at the progress events, the last one its full size. */
  ghost predicate ReadToEnd(text: string, cuts: seq<nat>) {
    Ndjson.Growing(text, cuts) && cuts != [] && cuts[|cuts| - 1] == |text|
  }

  /** What the parser makes of a line; a line it cannot parse is ignored. */
  function ParseLine(codec: Codec, line: string): Option<Frame> {
    match Ndjson.Offer(line)
    case None => None
    case Some(json) => codec.dec(json)
  }

  /** The frames passed to the render throttle, in order. */
  function Parsed(codec: Codec, lines: seq<string>, handed: seq<nat>): seq<Frame>
    requires forall i | 0 <= i < |handed| :: handed[i] < |lines|
  {
    if handed == [] then []
    else
      var n := |handed| - 1;
      var before := Parsed(codec, lines, handed[..n]);
      match ParseLine(codec, lines[handed[n]])
      case None => before
      case Some(frame) => before + [frame]
  }

  ghost function Rendered(codec: Codec, text: string, cuts: seq<nat>): seq<Frame>
    requires Ndjson.Growing(text, cuts)
  {
    Parsed(codec, Ndjson.Lines(text), Ndjson.Handed(Ndjson.Lines(text), Ndjson.Counts(text, cuts)))
  }

  /** Lines that are encoded frames parse to these frames. */
  lemma {:induction false} ParsedFrames(codec: Codec, frames: seq<Frame>, handed: seq<nat>)
    requires Faithful(codec) && forall i | 0 <= i < |handed| :: handed[i] < |frames|
    ensures var p := Parsed(codec, Encoded(codec.enc, frames), handed);
            |p| == |handed| && forall i | 0 <= i < |handed| :: p[i] == frames[handed[i]]
  {
    if handed != [] {
      var n := |handed| - 1;
      ParsedFrames(codec, frames, handed[..n]);
      assert ParseLine(codec, codec.enc(frames[handed[n]])) == Some(frames[handed[n]]);
    }
  }

  /** The frames whose lines are complete in the body. */
  function CompleteFrames(id: string, packets: seq<Packet>, count: Counter, ending: Ending): seq<Frame> {
    var frames := Frames(id, packets, count);
    if ending.Eof? || packets == [] then frames else frames[..|frames| - 1]
  }

  /** Without packets nothing reaches the parser. */
  lemma NothingHanded(lines: seq<string>, counts: seq<nat>)
    requires forall i | 0 <= i < |lines| :: Ndjson.Offer(lines[i]).None?
    ensures Ndjson.Handed(lines, counts) == []
  {
    if |counts| >= 2 {
      NothingHanded(lines, counts[..|counts| - 1]);
    }
  }

  lemma EmptyBody(codec: Codec, id: string, count: Counter, ending: Ending)
    requires Faithful(codec) && (ending.Failed? ==> Ndjson.NL !in ending.body)
    ensures Ndjson.Lines(Wire(codec.enc, id, [], count, ending)) == if ending.Eof? then [""] else []
    ensures Ndjson.Offer("") == None
  {
    EmptyStreamShowsNothing(codec, id, count);
    if ending.Failed? {
      assert "" + ending.body == ending.body;
      Ndjson.NoNewline(ending.body);
    }
  }

  /** What reaches the throttle are frames of packets, in order, whatever the cuts and the ending. */
  lemma RenderedFrames(codec: Codec, id: string, packets: seq<Packet>, count: Counter, ending: Ending, cuts: seq<nat>)
    requires Faithful(codec) && (ending.Failed? ==> Ndjson.NL !in ending.body)
    requires Ndjson.Growing(Wire(codec.enc, id, packets, count, ending), cuts)
    ensures var text := Wire(codec.enc, id, packets, count, ending);
            var h := Ndjson.Handed(Ndjson.Lines(text), Ndjson.Counts(text, cuts));
            var r := Rendered(codec, text, cuts);
            |r| == |h| && forall i | 0 <= i < |h| :: h[i] < |packets| && r[i] == Frames(id, packets, count)[h[i]]
  {
    var text := Wire(codec.enc, id, packets, count, ending);
    var lines, counts := Ndjson.Lines(text), Ndjson.Counts(text, cuts);
    if packets == [] {
      EmptyBody(codec, id, count, ending);
      NothingHanded(lines, counts);
    } else {
      LinesOfWire(codec, id, packets, count, ending);
      var frames := CompleteFrames(id, packets, count, ending);
      assert lines == Encoded(codec.enc, frames);
      ParsedFrames(codec, frames, Ndjson.Handed(lines, counts));
    }
  }

  lemma HandedFramesGrow(id: string, packets: seq<Packet>, count: Counter, h: seq<nat>, i: nat, j: nat)
    requires i <= j < |h| && (i < j ==> h[i] < h[j] < |packets|) && h[i] < |packets|
    ensures var frames := Frames(id, packets, count); frames[h[i]].text <= frames[h[j]].text
  {
    FramesGrow(id, packets, count, h[i], h[j]);
  }

  /** The texts delivered to the page grow by prefix: for every way to cut the body, after a normal end and
    * after a failure, each frame passed to the throttle repeats the text of every earlier one. */
  lemma DeliveredTextsGrow(codec: Codec, id: string, packets: seq<Packet>, count: Counter, ending: Ending,
                           cuts: seq<nat>, i: nat, j: nat)
    requires Faithful(codec) && (ending.Failed? ==> Ndjson.NL !in ending.body)
    requires Ndjson.Growing(Wire(codec.enc, id, packets, count, ending), cuts)
    requires i <= j < |Rendered(codec, Wire(codec.enc, id, packets, count, ending), cuts)|
    ensures var r := Rendered(codec, Wire(codec.enc, id, packets, count, ending), cuts); r[i].text <= r[j].text
  {
    var text := Wire(codec.enc, id, packets, count, ending);
    RenderedFrames(codec, id, packets, count, ending, cuts);
    Ndjson.CountsRise(text, cuts);
    Ndjson.HandedForward(Ndjson.Lines(text), Ndjson.Counts(text, cuts));
    HandedFramesGrow(id, packets, count, Ndjson.Handed(Ndjson.Lines(text), Ndjson.Counts(text, cuts)), i, j);
  }

  /** However the body is cut, the last parsed frame carries the text of all packets. */
  lemma LastParsedFrame(codec: Codec, id: string, sent: seq<Chunk>, count: Counter, cuts: seq<nat>)
    requires Faithful(codec) && sent != []
    requires ReadToEnd(Wire(codec.enc, id, Packets(sent), count, Eof), cuts)
    ensures var r := Rendered(codec, Wire(codec.enc, id, Packets(sent), count, Eof), cuts);
            r != [] && r[|r| - 1].text == TextOf(sent)
  {
    var packets := Packets(sent);
    var text := Wire(codec.enc, id, packets, count, Eof);
    RenderedFrames(codec, id, packets, count, Eof, cuts);
    LastLineHanded(codec, id, packets, count, cuts);
    FramesAt(id, packets, count, |packets| - 1);
    assert packets[..|packets|] == packets;
    MessageText(id, packets, count);
    PacketsContent(sent);
  }

  /** Once the body is read to its end, the frame of the last packet has been handed over last. */
  lemma LastLineHanded(codec: Codec, id: string, packets: seq<Packet>, count: Counter, cuts: seq<nat>)
    requires Faithful(codec) && packets != []
    requires ReadToEnd(Wire(codec.enc, id, packets, count, Eof), cuts)
    ensures var text := Wire(codec.enc, id, packets, count, Eof);
            var h := Ndjson.Handed(Ndjson.Lines(text), Ndjson.Counts(text, cuts));
            h != [] && h[|h| - 1] == |packets| - 1
  {
    var text := Wire(codec.enc, id, packets, count, Eof);
    var lines, frames := Ndjson.Lines(text), Frames(id, packets, count);
    LinesOfWire(codec, id, packets, count, Eof);
    assert lines == Encoded(codec.enc, frames);
    assert text[..|text|] == text;
    Ndjson.CountsRise(text, cuts);
    Ndjson.LastHanded(lines, Ndjson.Counts(text, cuts));
  }

  /** What is on the screen after the final flush, whatever timers fired before: the whole answer. */
  lemma ScreenShowsAnswer(codec: Codec, id: string, sent: seq<Chunk>, count: Counter, cuts: seq<nat>,
                          wait: int, events: seq<Throttle.Event<Frame>>)
    requires Faithful(codec) && sent != []
    requires ReadToEnd(Wire(codec.enc, id, Packets(sent), count, Eof), cuts)
    requires events != [] && events[|events| - 1].Flush? && Throttle.Run(wait, events).Some?
    requires Throttle.Passed(events) == Rendered(codec, Wire(codec.enc, id, Packets(sent), count, Eof), cuts)
    ensures var shots := Throttle.Run(wait, events).value.0.shots;
            shots != [] && shots[|shots| - 1].arg.text == TextOf(sent)
  {
    LastParsedFrame(codec, id, sent, count, cuts);
    Throttle.FlushShowsLast(wait, events);
  }

  /** One way to read and render a response: identifiers, token counts, sizes at the progress events, and the
    * events of the render throttle. */
  datatype Viewing = Viewing(codec: Codec, id: string, count: Counter, cuts: seq<nat>, wait: int,
                             events: seq<Throttle.Event<Frame>>)

  function Body(v: Viewing, sent: seq<Chunk>): string {
    Wire(v.codec.enc, v.id, Packets(sent), v.count, Eof)
  }

  /** The response was read to its end, every parsed frame was passed to the throttle, and a flush ended it. */
  ghost predicate Complete(v: Viewing, sent: seq<Chunk>) {
    && Faithful(v.codec) && ReadToEnd(Body(v, sent), v.cuts)
    && v.events != [] && v.events[|v.events| - 1].Flush? && Throttle.Run(v.wait, v.events).Some?
    && Throttle.Passed(v.events) == Rendered(v.codec, Body(v, sent), v.cuts)
  }

  /** The text rendered last. */
  function Screen(v: Viewing): string {
    match Throttle.Run(v.wait, v.events)
    case None => ""
    case Some((s, _)) => if s.shots == [] then "" else s.shots[|s.shots| - 1].arg.text
  }

  lemma ScreenIsText(v: Viewing, sent: seq<Chunk>)
    requires Complete(v, sent) && sent != []
    ensures Screen(v) == TextOf(sent)
  {
    ScreenShowsAnswer(v.codec, v.id, sent, v.count, v.cuts, v.wait, v.events);
  }

  /** However the two responses are cut, counted and rendered, both end on the same screen. */
  ghost predicate SameScreen(sent1: seq<Chunk>, sent2: seq<Chunk>) {
    forall v1, v2 | Complete(v1, sent1) && Complete(v2, sent2) :: Screen(v1) == Screen(v2)
  }

  lemma SameTextSameScreen(sent1: seq<Chunk>, sent2: seq<Chunk>)
    requires sent1 != [] && sent2 != [] && TextOf(sent1) == TextOf(sent2)
    ensures SameScreen(sent1, sent2)
  {
    forall v1, v2 | Complete(v1, sent1) && Complete(v2, sent2) ensures Screen(v1) == Screen(v2) {
      ScreenIsText(v1, sent1);
      ScreenIsText(v2, sent2);
    }
  }

  // ---------- over the wire ----------

  /** The writer calls of a handler that sends these packets over a transport that holds. */
  function Sends(sent: seq<Chunk>, json: Chunk -> string): (calls: seq<ZrpcWriter.Call>)
    ensures ZrpcWriter.AllSends(calls) && ZrpcWriter.AllOk(calls)
  {
    seq(|sent|, i requires 0 <= i < |sent| => ZrpcWriter.CallSend(Some(json(sent[i])), true))
  }

  function Jsons(sent: seq<Chunk>, json: Chunk -> string): seq<string> {
    seq(|sent|, i requires 0 <= i < |sent| => json(sent[i]))
  }

  lemma {:induction false} AcceptedAll(calls: seq<ZrpcWriter.Call>)
    requires ZrpcWriter.AllSends(calls) && ZrpcWriter.AllOk(calls)
    ensures var out := ZrpcWriter.Accepted(calls);
            |out| == |calls| && forall i | 0 <= i < |calls| :: out[i] == ZrpcWriter.Data(calls[i].payload.value)
  {
    if calls != [] {
      AcceptedAll(calls[1..]);
    }
  }

  /** Server handler, writer, wire, event queue and receive loop together: if the client sees what the writer
    * emitted and no event found its queue full, the loop receives exactly the packets sent, in order, and
    * ends as the handler did. */
  lemma WireKeepsPackets(sent: seq<Chunk>, json: Chunk -> string, failed: Option<int>, internal: int,
                         steps: seq<ZrpcClient.Step>)
    requires ZrpcClient.Run(ZrpcClient.START, steps).Some?
    requires var s := ZrpcClient.Run(ZrpcClient.START, steps).value;
             s.closed && s.queue == [] && ZrpcClient.AllKept(s.kept)
    requires var calls := Sends(sent, json);
             ZrpcClient.Run(ZrpcClient.START, steps).value.pushed ==
             ZrpcWriter.RunSpec(ZrpcWriter.ChatCalls(calls, failed, true),
               ZrpcWriter.ChatEnding(calls, failed, true, internal), true).out
    ensures ZrpcClient.Loop(ZrpcClient.Run(ZrpcClient.START, steps).value.yielded) ==
            (Jsons(sent, json), match failed case None => ZrpcClient.Eof case Some(code) => ZrpcClient.Status(code))
  {
    var calls := Sends(sent, json);
    ZrpcWriter.ChatStreamWire(calls, failed, true, true, internal);
    AcceptedAll(calls);
    ZrpcClient.ReadsEverythingExactly(steps);
    var data := ZrpcWriter.Accepted(calls);
    ZrpcClient.LoopOnStream(data, ZrpcWriter.Closing(failed, true, true));
    assert ZrpcClient.Payloads(data) == Jsons(sent, json);
  }

  // ---------- asked twice ----------

  /** A cache after a reliable run, and two questions that parse to the same eligible slots. */
  ghost predicate SameQuestion(parse: string -> ParsedQuery, rules: Decision.Rules,
                               embed: string -> seq<VectorCodec.float32>, w: World, ops: seq<Op>, c: string, q: string)
  {
    && Decision.SoundParser(parse) && w.svc == ServiceOf(parse, rules, embed, w.svc.parseScore)
    && FpEnabled(w) && Legal(w, ops) && Tidy(w.cfg, c) && c != "" && (forall op <- ops :: Reliable(op))
    && parse(q).fingerprintEligible && parse(c).fingerprintEligible && Decision.SameSlots(parse(q), parse(c))
  }

  ghost predicate Stands(cache: AnswerCache, w: World, st: Store)
    reads cache
  {
    cache.cfg == w.cfg && cache.svc == w.svc && cache.vectorEnabled == w.vecOn && cache.View() == st
  }

  lemma RepeatHits(parse: string -> ParsedQuery, rules: Decision.Rules, embed: string -> seq<VectorCodec.float32>,
                   w: World, ops: seq<Op>, c: string, q: string, a: string, env: QueryEnv)
    requires SameQuestion(parse, rules, embed, w, ops, c, q) && a != "" && LiveEnv(env)
    ensures var o := Query(w.cfg, w.svc, w.vecOn, Write(w.cfg, w.svc, w.vecOn, Run(w, ops), c, a, ALL_OK), q, env);
            o.hit && o.answer == a
  {
    RewordedQuestionHits(parse, rules, embed, w.svc.parseScore, w, ops, q, c, a, env);
    assert (ops + [OpWrite(c, a, ALL_OK)])[..|ops|] == ops;
  }

  /** Cache an answer, then ask in other words. */
  method WriteThenAsk(cache: AnswerCache, ghost parse: string -> ParsedQuery, ghost rules: Decision.Rules,
                      ghost embed: string -> seq<VectorCodec.float32>, ghost w: World, ghost ops: seq<Op>,
                      c: string, q: string, a: string, env: QueryEnv) returns (answer: string, hit: bool)
    requires SameQuestion(parse, rules, embed, w, ops, c, q) && a != "" && LiveEnv(env)
    requires Stands(cache, w, Run(w, ops))
    modifies cache`kv, cache`hash
    ensures hit && answer == a
  {
    RepeatHits(parse, rules, embed, w, ops, c, q, a, env);
    var _ := cache.CacheWrite(c, a, ALL_OK);
    var spawned;
    answer, hit, spawned := cache.CacheQuery(q, env);
  }

  /** What a clean request that misses the cache hands to it. */
  function Written(env: Env, hit: bool, room: int): Option<string> {
    if !hit && env.buildOk && ModelOk(env, room) && env.recordOk then Cacheable(Decisive(env)) else None
  }

  /** One clean request: the cache is asked first, a hit is replayed, a miss goes to the model. */
  method Ask(cache: AnswerCache, q: string, qe: QueryEnv, env: Env, sink: Sink) returns (write: Option<string>)
    requires env.check == Clean && sink.sent == []
    modifies sink
    ensures var o := Query(cache.cfg, cache.svc, cache.vectorEnabled, cache.View(), q, qe);
            write == Written(env, o.hit, sink.limit)
    ensures write.Some? ==> TextOf(sink.sent) == write.value != ""
  {
    var answer, hit, spawned := cache.CacheQuery(q, qe);
    write := AskWith(env, answer, hit, sink);
  }

  method AskWith(env: Env, answer: string, hit: bool, sink: Sink) returns (write: Option<string>)
    requires env.check == Clean && sink.sent == []
    modifies sink
    ensures write == Written(env, hit, sink.limit)
    ensures write.Some? ==> TextOf(sink.sent) == write.value != ""
  {
    var failed;
    failed, write := ChatCompletionStream(sink, env.(cached := if hit then Some(answer) else None));
  }

  /** A question is asked; if it misses the cache, the model answers and the answer may be cached, it is
    * written. A question that parses to the same eligible slots is asked. It is a hit, and what is sent is the
    * text sent the first time, or a first part of it if the transport breaks; if it holds, the reader ends on
    * the same screen. */
  method AskTwice(cache: AnswerCache, ghost parse: string -> ParsedQuery, ghost rules: Decision.Rules,
                  ghost embed: string -> seq<VectorCodec.float32>, ghost w: World, ghost ops: seq<Op>,
                  c: string, qc: QueryEnv, first: Env, sink1: Sink, q: string, qq: QueryEnv, second: Env, sink2: Sink)
    returns (written: bool, hit: bool)
    requires SameQuestion(parse, rules, embed, w, ops, c, q) && LiveEnv(qq)
    requires Stands(cache, w, Run(w, ops))
    requires first.check == Clean && second.check == Clean
    requires sink1 != sink2 && sink1.sent == [] && sink2.sent == []
    modifies cache`kv, cache`hash, sink1, sink2
    ensures written <==> Written(first, Query(w.cfg, w.svc, w.vecOn, Run(w, ops), c, qc).hit, sink1.limit).Some?
    ensures written ==> hit && TextOf(sink1.sent) == Decisive(first).content && TextOf(sink2.sent) <= TextOf(sink1.sent)
    ensures written && ReplaySize(TextOf(sink1.sent)) <= sink2.limit ==>
              TextOf(sink2.sent) == TextOf(sink1.sent) && SameScreen(sink1.sent, sink2.sent)
  {
    var write := Ask(cache, c, qc, first, sink1);
    written, hit := write.Some?, false;
    if written {
      var answer;
      answer, hit := WriteThenAsk(cache, parse, rules, embed, w, ops, c, q, write.value, qq);
      ReplayHit(second, answer, sink2);
      if TextOf(sink2.sent) == TextOf(sink1.sent) {
        SameTextSameScreen(sink1.sent, sink2.sent);
      }
    }
  }

  method ReplayHit(env: Env, answer: string, sink: Sink)
    requires env.check == Clean && sink.sent == []
    modifies sink
    ensures TextOf(sink.sent) <= answer
    ensures ReplaySize(answer) <= sink.limit ==> TextOf(sink.sent) == answer
  {
    var _, _ := ChatCompletionStream(sink, env.(cached := Some(answer)));
  }
}
