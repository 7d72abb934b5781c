/** The streaming side of the chat service: one upstream pass, the single retry, the closing packet,
  * and the chunked replay of a cached answer. */
module ChatStream {
  import opened Common

  /** A streamed packet. Object, model and time stamp are constant and left out. */
  datatype Chunk = Chunk(id: string, delta: string, finish: string, source: string)

  const CHUNK_SIZE := 100
  const NOTICE_EMPTY := "⚠ 模型未生成正式回答（可能在深度推理中），请重试一次或换个问法"
  const NOTICE_LENGTH := "\n\n⚠ 回答因长度限制被截断，请继续提问或换一种问法"
  const NOTICE_SENSITIVE := "触发到了知识盲区，请换个问题再问"

  /** The text that a client accumulates from packets. */
  function TextOf(chunks: seq<Chunk>): string {
    if chunks == [] then "" else TextOf(chunks[..|chunks| - 1]) + chunks[|chunks| - 1].delta
  }

  lemma {:induction false} TextAppend(a: seq<Chunk>, b: seq<Chunk>)
    ensures TextOf(a + b) == TextOf(a) + TextOf(b)
  {
    if b == [] {
      assert a + b == a;
    } else {
      assert (a + b)[..|a + b| - 1] == a + b[..|b| - 1];
      TextAppend(a, b[..|b| - 1]);
    }
  }

  /** The transport: it takes packets until it breaks, and nothing afterwards. */
  class Sink {
    const limit: nat
    var sent: seq<Chunk>

    constructor (limit: nat)
      ensures this.limit == limit && sent == []
    {
      this.limit, sent := limit, [];
    }

    predicate Valid()
      reads this
    {
      |sent| <= limit
    }

    method Send(c: Chunk) returns (ok: bool)
      requires Valid()
      modifies this
      ensures Valid()
      ensures ok <==> |old(sent)| < limit
      ensures sent == if ok then old(sent) + [c] else old(sent)
    {
      ok := |sent| < limit;
      if ok {
        sent := sent + [c];
      }
    }
  }

  /** Packets in order, errors ignored: what arrives is a prefix, all of it if the transport holds. */
  method SendAll(sink: Sink, list: seq<Chunk>) returns (ok: bool)
    requires sink.Valid()
    modifies sink
    ensures sink.Valid()
    ensures ok <==> |old(sink.sent)| + |list| <= sink.limit
    ensures sink.sent <= old(sink.sent) + list
    ensures |sink.sent| == if ok then |old(sink.sent)| + |list| else sink.limit
  {
    ok := true;
    ghost var all := sink.sent + list;
    for k := 0 to |list|
      invariant sink.Valid() && sink.sent <= all
      invariant ok <==> |old(sink.sent)| + k <= sink.limit
      invariant |sink.sent| == if ok then |old(sink.sent)| + k else sink.limit
    {
      var one := sink.Send(list[k]);
      ok := ok && one;
    }
  }

  // ---------- chunked replay ----------

  /** All packets full, the last one not empty. */
  predicate FullChunks(list: seq<Chunk>) {
    && (forall k | 0 <= k < |list| - 1 :: |list[k].delta| == CHUNK_SIZE)
    && (list != [] ==> 1 <= |list[|list| - 1].delta| <= CHUNK_SIZE)
  }

  method ResponseList(id: string, msg: string, source: string) returns (list: seq<Chunk>)
    ensures TextOf(list) == msg && FullChunks(list)
    ensures forall k | 0 <= k < |list| - 1 :: |list[k].delta| == 100
    ensures forall c <- list :: c.id == id && c.finish == "" && c.source == source
  {
    list := [];
    var i := 0;
    while i < |msg|
      invariant 0 <= i <= |msg|
      invariant TextOf(list) == msg[..i] && FullChunks(list)
      invariant i < |msg| ==> forall c <- list :: |c.delta| == CHUNK_SIZE
      invariant forall c <- list :: c.id == id && c.finish == "" && c.source == source
      decreases |msg| - i
    {
      var end := i + CHUNK_SIZE;
      if end > |msg| {
        end := |msg|;
      }
      var c := Chunk(id, msg[i..end], "", source);
      assert (list + [c])[..|list|] == list;
      assert msg[..end] == msg[..i] + msg[i..end];
      list := list + [c];
      i := end;
    }
    assert msg[..|msg|] == msg;
  }

  /** Two replays of the same answer are the same packets. */
  lemma {:induction false} ChunksUnique(a: seq<Chunk>, b: seq<Chunk>)
    requires FullChunks(a) && FullChunks(b) && TextOf(a) == TextOf(b)
    ensures |a| == |b| && forall k | 0 <= k < |a| :: a[k].delta == b[k].delta
  {
    ChunkCount(a);
    ChunkCount(b);
    if a != [] {
      var a', b' := a[..|a| - 1], b[..|b| - 1];
      FullPrefix(a);
      FullPrefix(b);
      assert TextOf(a') == TextOf(a)[..CHUNK_SIZE * |a'|];
      assert TextOf(b') == TextOf(b)[..CHUNK_SIZE * |b'|];
      assert a[|a| - 1].delta == TextOf(a)[CHUNK_SIZE * |a'|..];
      assert b[|b| - 1].delta == TextOf(b)[CHUNK_SIZE * |b'|..];
      ChunksUnique(a', b');
      forall k | 0 <= k < |a| ensures a[k].delta == b[k].delta {
        if k < |a'| {
          assert a'[k].delta == b'[k].delta;
        }
      }
    }
  }

  lemma {:induction false} FullPrefix(list: seq<Chunk>)
    requires FullChunks(list) && list != []
    ensures FullChunks(list[..|list| - 1]) && |TextOf(list[..|list| - 1])| == CHUNK_SIZE * (|list| - 1)
  {
    var init := list[..|list| - 1];
    if init != [] {
      assert init[|init| - 1] == list[|list| - 2];
      FullPrefix(init);
    }
  }

  lemma ChunkCount(list: seq<Chunk>)
    requires FullChunks(list)
    ensures CHUNK_SIZE * (|list| - 1) < |TextOf(list)| <= CHUNK_SIZE * |list| || (list == [] && TextOf(list) == "")
  {
    if list != [] {
      FullPrefix(list);
    }
  }

  // ---------- one upstream pass ----------

  /** A line of the event stream: not a data line, the end mark, unreadable JSON, no choices, or a delta. */
  datatype Line = Other | Done | Malformed | NoChoices | Delta(id: string, content: string, finish: string)

  /** An upstream response: whether it came with status 200, its lines, and whether reading failed at the end. */
  datatype Upstream = Upstream(accepted: bool, lines: seq<Line>, scanFails: bool)

  /** What a pass has gathered: the answer, the first id, the last finish reason, the packets sent. */
  datatype Pass = Pass(content: string, id: string, finish: string, chunks: seq<Chunk>)

  function OnLine(p: Pass, l: Line): Pass {
    if !l.Delta? then p
    else
      var id := if p.id == "" then l.id else p.id;
      var finish := if l.finish != "" then l.finish else p.finish;
      if l.content == "" then Pass(p.content, id, finish, p.chunks)
      else Pass(p.content + l.content, id, finish, p.chunks + [Chunk(id, l.content, "", "llm")])
  }

  function Gather(lines: seq<Line>): Pass {
    if lines == [] then Pass("", "", "", []) else OnLine(Gather(lines[..|lines| - 1]), lines[|lines| - 1])
  }

  /** The lines before the end mark. */
  function UpToDone(lines: seq<Line>): seq<Line> {
    if lines == [] || lines[0] == Done then [] else [lines[0]] + UpToDone(lines[1..])
  }

  /** A pass sends exactly the answer it returns, in non-empty pieces. */
  lemma {:induction false} PassText(lines: seq<Line>)
    ensures var p := Gather(lines);
            TextOf(p.chunks) == p.content && (p.content == "" <==> p.chunks == [])
  {
    if lines != [] {
      var before := Gather(lines[..|lines| - 1]);
      PassText(lines[..|lines| - 1]);
      var p := Gather(lines);
      if p.chunks != before.chunks {
        assert p.chunks[..|p.chunks| - 1] == before.chunks;
      }
    }
  }

  // ---------- a pass, line by line ----------

  /** Line `k` is a delta with a text, with an id, or with a finish reason. */
  predicate Talks(lines: seq<Line>, k: nat) {
    k < |lines| && lines[k].Delta? && lines[k].content != ""
  }

  predicate Identifies(lines: seq<Line>, k: nat) {
    k < |lines| && lines[k].Delta? && lines[k].id != ""
  }

  predicate Finishes(lines: seq<Line>, k: nat) {
    k < |lines| && lines[k].Delta? && lines[k].finish != ""
  }

  /** The id of the first delta that has one, empty if none has. */
  ghost predicate FirstId(lines: seq<Line>, id: string) {
    if exists k: nat :: Identifies(lines, k) then
      exists k: nat :: Identifies(lines, k) && lines[k].id == id && forall j | 0 <= j < k :: !Identifies(lines, j)
    else id == ""
  }

  /** The finish reason of the last delta that has one, empty if none has. */
  ghost predicate LastFinish(lines: seq<Line>, finish: string) {
    if exists k: nat :: Finishes(lines, k) then
      exists k: nat :: Finishes(lines, k) && lines[k].finish == finish
                       && forall j | k < j < |lines| :: !Finishes(lines, j)
    else finish == ""
  }

  lemma {:induction false} GatherId(lines: seq<Line>)
    ensures FirstId(lines, Gather(lines).id)
    ensures (exists k: nat :: Identifies(lines, k)) <==> Gather(lines).id != ""
  {
    if lines != [] {
      var n := |lines| - 1;
      var init := lines[..n];
      GatherId(init);
      forall k: nat | k < n ensures Identifies(lines, k) == Identifies(init, k) && lines[k] == init[k] {
      }
      if Identifies(lines, n) {
        assert Gather(lines).id == if Gather(init).id == "" then lines[n].id else Gather(init).id;
      }
    }
  }

  lemma {:induction false} GatherFinish(lines: seq<Line>)
    ensures LastFinish(lines, Gather(lines).finish)
  {
    if lines != [] {
      var n := |lines| - 1;
      var init := lines[..n];
      GatherFinish(init);
      forall k: nat | k < n ensures Finishes(lines, k) == Finishes(init, k) && lines[k] == init[k] {
      }
      if Finishes(lines, n) {
        assert Gather(lines).finish == lines[n].finish;
      }
    }
  }

  /** Which lines are deltas with a text. */
  ghost function Talking(lines: seq<Line>): (flags: seq<bool>)
    ensures |flags| == |lines|
  {
    seq(|lines|, k requires 0 <= k < |lines| => Talks(lines, k))
  }

  /** One packet for each of these lines: its text, under the first id seen by then. */
  ghost predicate OnePerText(lines: seq<Line>, at: seq<nat>, chunks: seq<Chunk>) {
    |chunks| == |at| && forall i | 0 <= i < |at| ::
      && at[i] < |lines| && lines[at[i]].Delta?
      && chunks[i].delta == lines[at[i]].content && chunks[i].finish == "" && chunks[i].source == "llm"
      && FirstId(lines[..at[i] + 1], chunks[i].id)
  }

  lemma OnePerTextStays(lines: seq<Line>, line: Line, at: seq<nat>, chunks: seq<Chunk>)
    requires OnePerText(lines, at, chunks)
    ensures OnePerText(lines + [line], at, chunks)
  {
    forall i | 0 <= i < |at| ensures (lines + [line])[..at[i] + 1] == lines[..at[i] + 1] {
    }
  }

  lemma OnePerTextMore(lines: seq<Line>, line: Line, at: seq<nat>, chunks: seq<Chunk>, id: string)
    requires OnePerText(lines + [line], at, chunks) && line.Delta? && FirstId(lines + [line], id)
    ensures OnePerText(lines + [line], at + [|lines|], chunks + [Chunk(id, line.content, "", "llm")])
  {
    assert (lines + [line])[..|lines| + 1] == lines + [line];
  }

  lemma TalkingMore(lines: seq<Line>, line: Line)
    ensures Positions(Talking(lines + [line]))
         == Positions(Talking(lines)) + if line.Delta? && line.content != "" then [|lines|] else []
  {
    var flags := Talking(lines + [line]);
    assert flags == Talking(lines) + [Talks(lines + [line], |lines|)];
    PositionsSnoc(Talking(lines), Talks(lines + [line], |lines|));
  }

  lemma {:induction false} GatherChunks(lines: seq<Line>)
    ensures OnePerText(lines, Positions(Talking(lines)), Gather(lines).chunks)
  {
    if lines != [] {
      var init, line := lines[..|lines| - 1], lines[|lines| - 1];
      assert lines == init + [line];
      GatherChunks(init);
      GatherChunksStep(init, line);
    }
  }

  lemma GatherChunksStep(lines: seq<Line>, line: Line)
    requires OnePerText(lines, Positions(Talking(lines)), Gather(lines).chunks)
    ensures OnePerText(lines + [line], Positions(Talking(lines + [line])), Gather(lines + [line]).chunks)
  {
    var at, before, p := Positions(Talking(lines)), Gather(lines), Gather(lines + [line]);
    assert (lines + [line])[..|lines|] == lines;
    GatherId(lines + [line]);
    TalkingMore(lines, line);
    OnePerTextStays(lines, line, at, before.chunks);
    if line.Delta? && line.content != "" {
      OnePerTextMore(lines, line, at, before.chunks, p.id);
    } else {
      assert at + [] == at;
    }
  }

  /** What a pass gathers: one packet for each text, in order; these texts together; the first id; the last
    * finish reason. */
  lemma PassExactly(lines: seq<Line>)
    ensures var p := Gather(lines);
            && OnePerText(lines, Positions(Talking(lines)), p.chunks)
            && p.content == TextOf(p.chunks) && (p.content == "" <==> forall k: nat :: !Talks(lines, k))
            && FirstId(lines, p.id) && LastFinish(lines, p.finish)
  {
    GatherChunks(lines);
    GatherId(lines);
    GatherFinish(lines);
    PassText(lines);
    PositionsExactly(Talking(lines));
    if k: nat :| Talks(lines, k) {
      assert Talking(lines)[k];
    }
    if Gather(lines).chunks != [] {
      assert Talking(lines)[Positions(Talking(lines))[0]];
    }
  }

  /** A pass succeeds: status 200, no read error, and room for all its packets. */
  predicate PassOk(up: Upstream, room: int) {
    up.accepted && !up.scanFails && |Gather(UpToDone(up.lines)).chunks| <= room
  }

  /** One delta: remember its id and finish reason, and send its text unless that is empty. */
  method ForwardDelta(sink: Sink, line: Line, ghost start: seq<Chunk>, ghost p: Pass, text: string, rid: string,
                      last: string)
    returns (ok: bool, text': string, rid': string, last': string)
    requires sink.Valid() && sink.sent == start + p.chunks && line.Delta?
    requires p == Pass(text, rid, last, p.chunks)
    modifies sink
    ensures sink.Valid()
    ensures ok <==> |start| + |OnLine(p, line).chunks| <= sink.limit
    ensures sink.sent == start + if ok then OnLine(p, line).chunks else p.chunks
    ensures OnLine(p, line) == Pass(text', rid', last', OnLine(p, line).chunks)
  {
    ok, text', rid', last' := true, text, rid, last;
    if rid == "" {
      rid' := line.id;
    }
    if line.finish != "" {
      last' := line.finish;
    }
    if line.content == "" {
      return;
    }
    text' := text + line.content;
    ok := sink.Send(Chunk(rid', line.content, "", "llm"));
  }

  method StreamLLMContent(sink: Sink, up: Upstream)
    returns (failed: bool, content: string, id: string, finish: string)
    requires sink.Valid()
    modifies sink
    ensures sink.Valid()
    ensures failed <==> !PassOk(up, sink.limit - |old(sink.sent)|)
    ensures old(sink.sent) <= sink.sent <= old(sink.sent) + Gather(UpToDone(up.lines)).chunks
    ensures !failed ==> Pass(content, id, finish, []) == Gather(UpToDone(up.lines)).(chunks := [])
    ensures !failed ==> sink.sent == old(sink.sent) + Gather(UpToDone(up.lines)).chunks
  {
    failed, content, id, finish := true, "", "", "";
    if !up.accepted {
      return;
    }
    var text, rid, last := "", "", "";
    ghost var start, p := sink.sent, Gather([]);
    var i := 0;
    assert up.lines[..0] == [];
    while i < |up.lines|
      invariant 0 <= i <= |up.lines| && sink.Valid()
      invariant forall k | 0 <= k < i :: up.lines[k] != Done
      invariant p == Gather(up.lines[..i]) == Pass(text, rid, last, p.chunks)
      invariant sink.sent == start + p.chunks
    {
      var line := up.lines[i];
      if line == Done {
        break;
      }
      GatherStep(up.lines, i);
      i := i + 1;
      if !line.Delta? {
        continue;
      }
      var ok;
      ok, text, rid, last := ForwardDelta(sink, line, start, p, text, rid, last);
      if !ok {
        BeforeDone(up.lines, i);
        return;
      }
      p := OnLine(p, line);
    }
    StoppedAt(up.lines, i);
    if up.scanFails {
      return;
    }
    return false, text, rid, last;
  }

  lemma GatherStep(lines: seq<Line>, i: nat)
    requires i < |lines|
    ensures Gather(lines[..i + 1]) == OnLine(Gather(lines[..i]), lines[i])
  {
    assert lines[..i + 1][..i] == lines[..i];
  }

  /** Lines before the end mark contribute the first packets of the pass. */
  lemma BeforeDone(lines: seq<Line>, i: nat)
    requires i <= |lines| && forall k | 0 <= k < i :: lines[k] != Done
    ensures Gather(lines[..i]).chunks <= Gather(UpToDone(lines)).chunks
  {
    UpToDoneFrom(lines, i);
    GatherGrows(lines[..i], UpToDone(lines[i..]));
  }

  lemma {:induction false} UpToDoneFrom(lines: seq<Line>, i: nat)
    requires i <= |lines| && forall k | 0 <= k < i :: lines[k] != Done
    ensures UpToDone(lines) == lines[..i] + UpToDone(lines[i..])
  {
    if i > 0 {
      UpToDoneFrom(lines[1..], i - 1);
      assert lines[..i] == [lines[0]] + lines[1..][..i - 1] && lines[1..][i - 1..] == lines[i..];
    }
  }

  lemma {:induction false} GatherGrows(a: seq<Line>, b: seq<Line>)
    ensures Gather(a).chunks <= Gather(a + b).chunks
  {
    if b == [] {
      assert a + b == a;
    } else {
      assert (a + b)[..|a + b| - 1] == a + b[..|b| - 1];
      GatherGrows(a, b[..|b| - 1]);
    }
  }

  lemma StoppedAt(lines: seq<Line>, i: nat)
    requires i <= |lines| && (forall k | 0 <= k < i :: lines[k] != Done) && (i < |lines| ==> lines[i] == Done)
    ensures lines[..i] == UpToDone(lines)
  {
    UpToDoneFrom(lines, i);
  }

  // ---------- the whole request ----------

  datatype Check = CheckFailed | Blocked | Clean

  /** Everything outside: the sensitive-word check, the cache, the request builder, two upstream passes,
    * the token counter and the record store. */
  datatype Env = Env(check: Check, cached: Option<string>, buildOk: bool, first: Upstream, second: Upstream,
                     tokensOk: bool, recordOk: bool)

  /** The pass that decides: the second one only if the first produced nothing. */
  function Decisive(env: Env): Pass {
    var p := Gather(UpToDone(env.first.lines));
    if p.content == "" then Gather(UpToDone(env.second.lines)) else p
  }

  /** The lines that decide: those of the first pass before its end mark if one of them has a text, otherwise
    * those of the second. */
  ghost function Deciding(env: Env): seq<Line> {
    if exists k: nat :: Talks(UpToDone(env.first.lines), k) then UpToDone(env.first.lines)
    else UpToDone(env.second.lines)
  }

  lemma DecisiveExactly(env: Env)
    ensures Decisive(env) == Gather(Deciding(env))
  {
    PassExactly(UpToDone(env.first.lines));
  }

  /** The last finish reason of the deciding lines says that the answer was cut off. */
  ghost predicate Truncated(env: Env) {
    LastFinish(Deciding(env), "length")
  }

  ghost predicate Answered(env: Env) {
    exists k: nat :: Talks(Deciding(env), k)
  }

  /** Without any text there is a notice that says so, after a truncated one a notice that says so, and none of
    * the two is cached; any other answer stands as it is and may be cached. */
  lemma NoticeExactly(env: Env)
    ensures var p := Decisive(env);
            && p.content == TextOf(p.chunks)
            && OnePerText(Deciding(env), Positions(Talking(Deciding(env))), p.chunks)
            && Notice(p) == (if !Answered(env) then NOTICE_EMPTY else if Truncated(env) then NOTICE_LENGTH else "")
            && Cacheable(p) == if Answered(env) && !Truncated(env) then Some(TextOf(p.chunks)) else None
  {
    DecisiveExactly(env);
    PassExactly(Deciding(env));
    LastFinishUnique(Deciding(env), Decisive(env).finish, "length");
  }

  lemma LastFinishUnique(lines: seq<Line>, a: string, b: string)
    requires LastFinish(lines, a)
    ensures LastFinish(lines, b) <==> a == b
  {
    if LastFinish(lines, b) && exists k: nat :: Finishes(lines, k) {
      var i: nat :| Finishes(lines, i) && lines[i].finish == a && forall j | i < j < |lines| :: !Finishes(lines, j);
      var k: nat :| Finishes(lines, k) && lines[k].finish == b && forall j | k < j < |lines| :: !Finishes(lines, j);
    }
  }

  function Notice(p: Pass): string {
    if p.content == "" then NOTICE_EMPTY else if p.finish == "length" then NOTICE_LENGTH else ""
  }

  /** What may be cached of a pass. */
  function Cacheable(p: Pass): Option<string> {
    if p.content != "" && p.finish != "length" then Some(p.content) else None
  }

  /** The packets of a replay: an opening one, the chunks, and a stop packet. */
  function ReplaySize(text: string): nat {
    (|text| + CHUNK_SIZE - 1) / CHUNK_SIZE + 2
  }

  /** What arrives is a piece of the text from its beginning, all of it exactly if the transport has room. */
  method Replay(sink: Sink, id: string, text: string, source: string) returns (ok: bool)
    requires sink.Valid() && sink.sent == []
    modifies sink
    ensures sink.Valid()
    ensures ok <==> ReplaySize(text) <= sink.limit
    ensures TextOf(sink.sent) <= text && (ok ==> TextOf(sink.sent) == text)
    ensures |sink.sent| == if ok then ReplaySize(text) else sink.limit
    ensures AllFrom(sink.sent, id, source) && FinishedBy(sink.sent, ok)
  {
    var packets := PacketList(id, text, source);
    assert sink.sent + packets == packets;
    ok := SendAll(sink, packets);
    assert ok ==> sink.sent == packets;
    TextGrows(sink.sent, packets);
    FirstPackets(sink.sent, packets, ok);
  }

  /** All packets of a replay. */
  method PacketList(id: string, text: string, source: string) returns (packets: seq<Chunk>)
    ensures TextOf(packets) == text && |packets| == ReplaySize(text)
    ensures AllFrom(packets, id, source) && FinishedBy(packets, true)
  {
    var list := ResponseList(id, text, source);
    packets := [Chunk(id, "", "", source)] + list + [Chunk(id, "", "stop", source)];
    ReplayPackets(list, packets[0], packets[|list| + 1]);
  }

  /** Only the last packet says stop, and only if all were sent; the first one and that last one are empty. */
  predicate FinishedBy(packets: seq<Chunk>, all: bool) {
    && (forall k | 0 <= k < |packets| :: packets[k].finish == if all && k == |packets| - 1 then "stop" else "")
    && (packets != [] ==> packets[0].delta == "")
    && (all ==> |packets| >= 2 && packets[|packets| - 1].delta == "")
  }

  lemma FirstPackets(sent: seq<Chunk>, packets: seq<Chunk>, all: bool)
    requires sent <= packets && FinishedBy(packets, true) && (all <==> sent == packets)
    ensures FinishedBy(sent, all)
  {
  }

  /** Packets with this id and source. */
  predicate AllFrom(packets: seq<Chunk>, id: string, source: string) {
    forall k | 0 <= k < |packets| :: packets[k].id == id && packets[k].source == source
  }

  lemma ReplayPackets(list: seq<Chunk>, opening: Chunk, closing: Chunk)
    requires FullChunks(list) && opening.delta == closing.delta == ""
    ensures TextOf([opening] + list + [closing]) == TextOf(list)
    ensures |list| + 2 == ReplaySize(TextOf(list))
  {
    ChunkCount(list);
    TextAppend([opening] + list, [closing]);
    TextAppend([opening], list);
    assert TextOf([opening]) == "" && TextOf([closing]) == "";
  }

  lemma TextGrows(a: seq<Chunk>, b: seq<Chunk>)
    requires a <= b
    ensures TextOf(a) <= TextOf(b)
  {
    assert b == a + b[|a|..];
    TextAppend(a, b[|a|..]);
  }

  /** The first pass succeeds, and the second too if it is needed; the first then sends nothing. */
  predicate RunOk(env: Env, room: int) {
    PassOk(env.first, room) && (Gather(UpToDone(env.first.lines)).content == "" ==> PassOk(env.second, room))
  }

  /** At most two passes, the second only after an empty one. Whatever fails, nothing is sent but a first
    * part of the deciding pass. */
  method RunPasses(sink: Sink, env: Env) returns (failed: bool, content: string, id: string, finish: string)
    requires sink.Valid() && sink.sent == []
    modifies sink
    ensures sink.Valid()
    ensures failed <==> !RunOk(env, sink.limit)
    ensures sink.sent <= Decisive(env).chunks
    ensures !failed ==> Decisive(env) == Pass(content, id, finish, sink.sent)
  {
    content, id, finish := "", "", "";
    PassText(UpToDone(env.first.lines));
    var attempt := 0;
    while attempt < 2 && content == ""
      invariant 0 <= attempt <= 2 && sink.Valid()
      invariant attempt == 0 ==> sink.sent == [] && content == ""
      invariant attempt >= 1 ==> PassOk(env.first, sink.limit)
      invariant attempt == 1 ==> Gather(UpToDone(env.first.lines)) == Pass(content, id, finish, sink.sent)
      invariant attempt == 2 ==> Gather(UpToDone(env.first.lines)).content == "" && PassOk(env.second, sink.limit)
      invariant attempt == 2 ==> Gather(UpToDone(env.second.lines)) == Pass(content, id, finish, sink.sent)
    {
      var bad, c, rid, fin := StreamLLMContent(sink, if attempt == 0 then env.first else env.second);
      if bad {
        return true, "", "", "";
      }
      content, id, finish := c, rid, fin;
      attempt := attempt + 1;
    }
    failed := false;
  }

  /** Everything a model answer sends: the deciding pass and a closing packet with its notice, if any. */
  function ModelPackets(env: Env): seq<Chunk> {
    var p := Decisive(env);
    p.chunks + [Chunk(p.id, Notice(p), "stop", "llm")]
  }

  /** The passes succeed, the closing packet has room, and the tokens can be counted. */
  predicate ModelOk(env: Env, room: int) {
    RunOk(env, room) && |ModelPackets(env)| <= room && env.tokensOk
  }

  /** The closing packet carries a notice after an empty or a truncated answer. */
  method AnswerFromModel(sink: Sink, env: Env) returns (failed: bool, write: Option<string>)
    requires sink.Valid() && sink.sent == []
    modifies sink
    ensures sink.Valid()
    ensures failed <==> !ModelOk(env, sink.limit)
    ensures sink.sent <= ModelPackets(env) && (!failed ==> sink.sent == ModelPackets(env))
    ensures !failed ==> sink.sent != [] && var last := sink.sent[|sink.sent| - 1];
              last.finish == "stop" && last.source == "llm" && last.id == Decisive(env).id
    ensures write == if !failed && env.recordOk then Cacheable(Decisive(env)) else None
  {
    failed, write := true, None;
    var bad, content, id, finish := RunPasses(sink, env);
    if bad {
      return;
    }
    var closing := Chunk(id, "", "stop", "llm");
    if content == "" {
      closing := closing.(delta := NOTICE_EMPTY);
    } else if finish == "length" {
      closing := closing.(delta := NOTICE_LENGTH);
    }
    assert sink.sent + [closing] == ModelPackets(env);
    var ok := sink.Send(closing);
    if !ok {
      return;
    }
    if content == "" {
      finish := "no_content";
    }
    if !env.tokensOk {
      return;
    }
    failed := false;
    if env.recordOk {
      if content != "" && finish != "length" {
        write := Some(content);
      }
    }
  }

  lemma ModelText(env: Env)
    ensures TextOf(ModelPackets(env)) == Decisive(env).content + Notice(Decisive(env))
    ensures Cacheable(Decisive(env)).Some? ==> Cacheable(Decisive(env)).value == TextOf(ModelPackets(env))
  {
    DecisiveText(env);
    var all := ModelPackets(env);
    assert all[..|all| - 1] == Decisive(env).chunks;
    CacheableExactly(Decisive(env));
  }

  lemma DecisiveText(env: Env)
    ensures TextOf(Decisive(env).chunks) == Decisive(env).content
  {
    PassText(UpToDone(env.first.lines));
    PassText(UpToDone(env.second.lines));
  }

  /** When the request fails. A broken transport does not fail the replay of a cached answer. */
  predicate StreamFails(env: Env, room: int) {
    match env.check
    case CheckFailed => true
    case Blocked => room < ReplaySize(NOTICE_SENSITIVE)
    case Clean => env.cached.None? && !(env.buildOk && ModelOk(env, room))
  }

  /** The text the client is meant to get. */
  function FullText(env: Env): string {
    match env.check
    case CheckFailed => ""
    case Blocked => NOTICE_SENSITIVE
    case Clean =>
      if env.cached.Some? then env.cached.value
      else if !env.buildOk then ""
      else Decisive(env).content + Notice(Decisive(env))
  }

  /** chatCompletionStream: what it sends is always a first part of the full text, whatever fails on the way;
    * `write` is the answer handed to the cache in the background, and is then the text sent. */
  method ChatCompletionStream(sink: Sink, env: Env) returns (failed: bool, write: Option<string>)
    requires sink.Valid() && sink.sent == []
    modifies sink
    ensures failed <==> StreamFails(env, sink.limit)
    ensures TextOf(sink.sent) <= FullText(env)
    ensures !failed && (env.check.Blocked? || env.cached.None? || ReplaySize(env.cached.value) <= sink.limit) ==>
              TextOf(sink.sent) == FullText(env)
    ensures write == if !failed && env.check.Clean? && env.cached.None? && env.recordOk then Cacheable(Decisive(env))
                     else None
    ensures write.Some? ==> TextOf(sink.sent) == write.value
    ensures !failed && env.check.Clean? && env.cached.None? ==>
              && (write.Some? <==> env.recordOk && Answered(env) && !Truncated(env))
              && TextOf(sink.sent) == TextOf(Decisive(env).chunks)
                 + if !Answered(env) then NOTICE_EMPTY else if Truncated(env) then NOTICE_LENGTH else ""
  {
    NoticeExactly(env);
    failed, write := true, None;
    if env.check == CheckFailed {
      return;
    }
    if env.check == Blocked {
      var ok := Replay(sink, "res", NOTICE_SENSITIVE, "");
      return !ok, None;
    }
    if env.cached.Some? {
      var _ := Replay(sink, "res", env.cached.value, "cache");
      return false, None;
    }
    if !env.buildOk {
      return;
    }
    failed, write := AnswerFromModel(sink, env);
    TextGrows(sink.sent, ModelPackets(env));
    ModelText(env);
  }

  /** The retry never repeats text: a second pass is decisive only if the first one sent no packet. */
  lemma RetryOnlyAfterSilence(env: Env)
    requires Decisive(env) != Gather(UpToDone(env.first.lines))
    ensures Gather(UpToDone(env.first.lines)).chunks == []
  {
    PassText(UpToDone(env.first.lines));
  }

  /** An answer may be cached exactly when nothing was added to it for the reader: no notice, whole text. */
  lemma CacheableExactly(p: Pass)
    ensures Cacheable(p).Some? <==> Notice(p) == ""
    ensures Cacheable(p).Some? ==> Cacheable(p).value == p.content + Notice(p)
  {
    assert |NOTICE_EMPTY| > 0 && |NOTICE_LENGTH| > 0;
  }

  // ---------- the request without streaming ----------

  /** chatCompletion: one upstream call, whose answer comes with a finish reason; None if it fails. */
  method ChatCompletion(env: Env, upstream: Option<Pass>) returns (failed: bool, reply: string, write: Option<string>)
    ensures failed <==>
            env.check.CheckFailed?
            || (env.check.Clean? && env.cached.None? && (!env.buildOk || upstream.None?))
    ensures env.check.Blocked? ==> reply == NOTICE_SENSITIVE && write.None?
    ensures env.check.Clean? && env.cached.Some? ==> reply == env.cached.value && write.None?
    ensures env.check.Clean? && env.cached.None? && !failed ==>
              reply == upstream.value.content && write == if env.recordOk && reply != "" then Some(reply) else None
    ensures failed ==> write.None?
  {
    failed, reply, write := true, "", None;
    if env.check == CheckFailed {
      return;
    }
    if env.check == Blocked {
      return false, NOTICE_SENSITIVE, None;
    }
    if env.cached.Some? {
      return false, env.cached.value, None;
    }
    if !env.buildOk || upstream.None? {
      return;
    }
    failed, reply := false, upstream.value.content;
    if env.recordOk && reply != "" {
      write := Some(reply);
    }
  }

  /** The same question at both endpoints, answered alike by the model: they hand the same to the cache
    * exactly when the answer was not cut off by length. */
  method BothEndpoints(sink: Sink, env: Env, p: Pass)
    returns (failed: bool, streamed: Option<string>, blocking: Option<string>)
    requires sink.Valid() && sink.sent == []
    requires env.check == Clean && env.cached == None && env.buildOk && env.recordOk
    requires p.content == Decisive(env).content && p.finish == Decisive(env).finish
    modifies sink
    ensures failed <==> !ModelOk(env, sink.limit)
    ensures !failed ==> (streamed == blocking <==> p.content == "" || p.finish != "length")
  {
    failed, streamed := ChatCompletionStream(sink, env);
    var failed', reply;
    failed', reply, blocking := ChatCompletion(env, Some(p));
  }
}
