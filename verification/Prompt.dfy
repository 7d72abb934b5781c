/** Building the model request: system message, as much recent context as the budget allows, the question. */
module Prompt {
  import opened Common
  import opened Context

  const PRIMED := 2

  /** The parameters of one request. */
  datatype Params = Params(botDesc: string, maxTokens: int, minResponse: int, contextLen: nat)

  /** The tokenizer: the tokens of a message, or None when the request fails. */
  type Tokenizer = Message -> Option<int>

  datatype Built = Built(messages: seq<Message>, tokens: int, currTokens: int)

  function Budget(p: Params): int {
    p.maxTokens - p.minResponse
  }

  function SystemMessage(p: Params): Message {
    Message("system", p.botDesc)
  }

  /** Tokens of the system message, none without a description. */
  function BotTokens(p: Params, count: Tokenizer): Option<int> {
    if p.botDesc == "" then Some(0) else count(SystemMessage(p))
  }

  // ---------- cost of a context ----------

  function Cost(list: seq<Entry>): int {
    if list == [] then 0 else Cost(list[..|list| - 1]) + list[|list| - 1].tokens + PRIMED
  }

  function Texts(list: seq<Entry>): (r: seq<Message>)
    ensures |r| == |list|
  {
    seq(|list|, i requires 0 <= i < |list| => list[i].message)
  }

  function Reversed<T>(s: seq<T>): (r: seq<T>)
    ensures |r| == |s|
    ensures forall i | 0 <= i < |s| :: r[i] == s[|s| - 1 - i]
  {
    seq(|s|, i requires 0 <= i < |s| => s[|s| - 1 - i])
  }

  /** The first `k` messages are kept: each of them fits on top of the ones before, the next one does not. */
  ghost predicate Greedy(list: seq<Entry>, base: int, budget: int, k: nat) {
    && k <= |list|
    && (forall j | 0 < j <= k :: base + Cost(list[..j]) <= budget)
    && (k < |list| ==> base + Cost(list[..k + 1]) > budget)
  }

  lemma {:induction false} CostMonotone(list: seq<Entry>, i: nat, j: nat)
    requires i <= j <= |list| && forall k | 0 <= k < |list| :: list[k].tokens >= 0
    ensures Cost(list[..i]) <= Cost(list[..j])
  {
    if i < j {
      CostMonotone(list, i, j - 1);
      assert list[..j][..j - 1] == list[..j - 1];
    }
  }

  /** With token counts that are not negative, the kept messages are exactly the longest affordable prefix:
    * a prefix is within the budget if and only if it is no longer. */
  lemma GreedyIsLongest(list: seq<Entry>, base: int, budget: int, k: nat, j: nat)
    requires Greedy(list, base, budget, k) && base <= budget && j <= |list|
    requires forall i | 0 <= i < |list| :: list[i].tokens >= 0
    ensures j <= k <==> base + Cost(list[..j]) <= budget
  {
    if j > k {
      CostMonotone(list, k + 1, j);
    } else if j == 0 {
      assert list[..0] == [];
    }
  }

  // ---------- rebuildMessages ----------

  /** Two indices moving towards each other, swapping in place. */
  method ReverseInPlace(a: array<Message>)
    modifies a
    ensures a[..] == Reversed(old(a[..]))
  {
    var i, j := 0, a.Length - 1;
    while i < j
      invariant 0 <= i && j == a.Length - 1 - i && i <= j + 1
      invariant forall k | 0 <= k < i :: a[k] == old(a[a.Length - 1 - k]) && a[a.Length - 1 - k] == old(a[k])
      invariant forall k | i <= k <= j :: a[k] == old(a[k])
      decreases j - i
    {
      a[i], a[j] := a[j], a[i];
      i, j := i + 1, j - 1;
    }
  }

  method InOrder(messages: seq<Message>) returns (r: seq<Message>)
    ensures r == Reversed(messages)
  {
    var a := new Message[|messages|](i requires 0 <= i < |messages| => messages[i]);
    assert a[..] == messages;
    ReverseInPlace(a);
    r := a[..];
  }

  /** The question does not fit beside the system message and the reserved answer. */
  predicate TooLong(p: Params, bot: int, curr: int) {
    curr > p.maxTokens - p.minResponse - bot - PRIMED
  }

  /** The question comes last, before it the `k` newest context messages, the newest nearest to it, and the
    * system message first if it counts any tokens. */
  ghost predicate LaidOut(p: Params, bot: int, list: seq<Entry>, k: nat, curr: Message, messages: seq<Message>) {
    var n := |messages|;
    && k <= |list| && n == k + 1 + (if bot > 0 then 1 else 0)
    && messages[n - 1] == curr
    && (forall i | 0 <= i < k :: messages[n - 2 - i] == list[i].message)
    && (bot > 0 ==> messages[0] == Message("system", p.botDesc))
  }

  ghost predicate WellBuilt(p: Params, bot: int, list: seq<Entry>, curr: Message, currTokens: int, b: Built, k: nat) {
    && Greedy(list, currTokens + bot + PRIMED, Budget(p), k)
    && LaidOut(p, bot, list, k, curr, b.messages)
    && b.tokens == currTokens + bot + PRIMED + Cost(list[..k]) && b.tokens <= Budget(p)
    && b.currTokens == currTokens
  }

  /** The context loop: append newest first while the budget lasts. */
  method CollectContext(p: Params, list: seq<Entry>, curr: Message, base: int)
    returns (messages: seq<Message>, tokens: int, k: nat)
    requires base <= Budget(p)
    ensures Greedy(list, base, Budget(p), k)
    ensures messages == [curr] + Texts(list[..k]) && tokens == base + Cost(list[..k]) && tokens <= Budget(p)
  {
    messages, tokens, k := [curr], base, 0;
    assert list[..0] == [];
    while k < |list|
      invariant k <= |list| && forall j | 0 < j <= k :: base + Cost(list[..j]) <= Budget(p)
      invariant messages == [curr] + Texts(list[..k]) && tokens == base + Cost(list[..k]) && tokens <= Budget(p)
    {
      assert list[..k + 1][..k] == list[..k];
      if tokens + list[k].tokens + PRIMED > p.maxTokens - p.minResponse {
        break;
      }
      messages := messages + [list[k].message];
      tokens := tokens + list[k].tokens + PRIMED;
      k := k + 1;
    }
  }

  method Assemble(p: Params, bot: int, list: seq<Entry>, curr: Message, currTokens: int)
    returns (b: Built, ghost k: nat)
    requires !TooLong(p, bot, currTokens)
    ensures WellBuilt(p, bot, list, curr, currTokens, b, k)
  {
    var messages, tokens, kept := CollectContext(p, list, curr, currTokens + bot + PRIMED);
    k := kept;
    messages := InOrder(messages);
    InOrderIsLaidOut(p, bot, list, k, curr, messages);
    if bot > 0 {
      messages := [SystemMessage(p)] + messages;
    }
    b := Built(messages, tokens, currTokens);
  }

  lemma InOrderIsLaidOut(p: Params, bot: int, list: seq<Entry>, k: nat, curr: Message, messages: seq<Message>)
    requires k <= |list| && messages == Reversed([curr] + Texts(list[..k]))
    ensures LaidOut(p, bot, list, k, curr, if bot > 0 then [SystemMessage(p)] + messages else messages)
  {
    var n := |messages|;
    assert messages[n - 1] == curr;
    forall i | 0 <= i < k ensures messages[n - 2 - i] == list[i].message {
      assert messages[n - 2 - i] == ([curr] + Texts(list[..k]))[i + 1];
    }
  }

  method RebuildMessages(p: Params, count: Tokenizer, list: seq<Entry>, curr: Message)
    returns (built: Option<Built>, ghost k: nat)
    ensures built.None? <==>
            BotTokens(p, count).None? || count(curr).None?
            || TooLong(p, BotTokens(p, count).value, count(curr).value)
    ensures built.Some? ==> WellBuilt(p, BotTokens(p, count).value, list, curr, count(curr).value, built.value, k)
  {
    built, k := None, 0;
    var bot := 0;
    if p.botDesc != "" {
      var t := count(SystemMessage(p));
      if t.None? {
        return;
      }
      bot := t.value;
    }
    var c := count(curr);
    if c.None? || c.value > p.maxTokens - p.minResponse - bot - PRIMED {
      return;
    }
    var b;
    b, k := Assemble(p, bot, list, curr, c.value);
    built := Some(b);
  }

  // ---------- cost and refusal in numbers ----------

  function TokenSum(list: seq<Entry>): int {
    if list == [] then 0 else list[0].tokens + TokenSum(list[1..])
  }

  lemma {:induction false} TokenSumSnoc(list: seq<Entry>, e: Entry)
    ensures TokenSum(list + [e]) == TokenSum(list) + e.tokens
  {
    if list != [] {
      assert (list + [e])[1..] == list[1..] + [e];
      TokenSumSnoc(list[1..], e);
    }
  }

  /** A context costs its tokens and two more for each message. */
  lemma {:induction false} CostExactly(list: seq<Entry>)
    ensures Cost(list) == TokenSum(list) + 2 * |list|
  {
    if list != [] {
      var n := |list| - 1;
      CostExactly(list[..n]);
      TokenSumSnoc(list[..n], list[n]);
      assert list == list[..n] + [list[n]];
    }
  }

  /** A request is refused exactly when a count fails, or question, system message and the two tokens that open
    * the answer do not fit beside the reserved ones; without a description there is no system message. */
  lemma RefusedExactly(p: Params, count: Tokenizer, curr: Message)
    ensures var system := if p.botDesc == "" then Some(0) else count(Message("system", p.botDesc));
            Refused(p, count, curr) <==>
            system.None? || count(curr).None?
            || count(curr).value + system.value + 2 + p.minResponse > p.maxTokens
  {
  }

  // ---------- the request ----------

  /** The model request: its messages and the tokens left for the answer. */
  datatype Request = Request(messages: seq<Message>, maxTokens: int)

  datatype Input = Input(message: string, pid: string, enableContext: bool)

  /** What the context reads meet: the store at each read, and the reads that fail. */
  datatype Reads = Reads(stores: seq<Entries>, broken: set<nat>)

  /** Every store that a read meets holds messages of the history `h`. */
  ghost predicate Readable(p: Params, env: Reads, h: Entries) {
    |env.stores| == p.contextLen && forall i | 0 <= i < p.contextLen :: Within(env.stores[i], h)
  }

  predicate Refused(p: Params, count: Tokenizer, curr: Message) {
    BotTokens(p, count).None? || count(curr).None? || TooLong(p, BotTokens(p, count).value, count(curr).value)
  }

  /** The request holds the kept part of the context list, oldest first, between the system message and the
    * question, and leaves the rest of the tokens, at least the reserved ones, for the answer. */
  ghost predicate RequestOk(p: Params, count: Tokenizer, curr: Message, list: seq<Entry>, k: nat, req: Request)
    requires !Refused(p, count, curr)
  {
    var bot := BotTokens(p, count).value;
    var base := count(curr).value + bot + PRIMED;
    && Greedy(list, base, Budget(p), k)
    && LaidOut(p, bot, list, k, curr, req.messages)
    && req.maxTokens == p.maxTokens - base - Cost(list[..k]) && req.maxTokens >= p.minResponse
  }

  /** `list` is the context read for the request: a gapless piece of the question's ancestor chain. */
  method BuildChatCompletionRequest(p: Params, count: Tokenizer, input: Input, env: Reads, ghost h: Entries)
    returns (req: Option<Request>, ghost list: seq<Entry>, ghost k: nat)
    requires Readable(p, env, h)
    ensures list == Chain(h, input.pid, |list|) && |list| <= p.contextLen
    ensures !input.enableContext ==> list == []
    ensures input.enableContext && env.broken == {} && (forall i | 0 <= i < p.contextLen :: env.stores[i] == h) ==>
              list == Chain(h, input.pid, p.contextLen)
    ensures req.None? <==> Refused(p, count, Message("user", input.message))
    ensures req.Some? ==> RequestOk(p, count, Message("user", input.message), list, k, req.value)
  {
    var curr := Message("user", input.message);
    var contextList := [];
    if input.enableContext {
      contextList := GetContext(env.stores, env.broken, input.pid, p.contextLen, h);
      if |contextList| < p.contextLen {
        ChainEnds(h, input.pid, |contextList|, p.contextLen);
      }
    }
    list := contextList;
    var built;
    built, k := RebuildMessages(p, count, contextList, curr);
    if built.None? {
      return None, list, k;
    }
    req := Some(Request(built.value.messages, p.maxTokens - built.value.tokens));
  }

  // ---------- a whole conversation ----------

  /** The next question of a conversation whose messages are all still stored: the request repeats the newest
    * turns, back to the last one that was not saved completely, as far as length limit and budget allow. */
  method NextQuestion(p: Params, count: Tokenizer, turns: seq<Turn>, question: string)
    returns (req: Option<Request>, ghost k: nat)
    requires DistinctIds(turns)
    ensures req.None? <==> Refused(p, count, Message("user", question))
    ensures req.Some? ==>
            RequestOk(p, count, Message("user", question), Newest(Recall(turns), p.contextLen), k, req.value)
    ensures req.Some? ==> Retold(turns, k, req.value.messages)
  {
    var h := History(Saves(turns));
    var pid := LastId(turns);
    var env := Reads(seq(p.contextLen, i => h), {});
    ghost var list;
    req, list, k := BuildChatCompletionRequest(p, count, Input(question, pid, pid != ""), env, h);
    ChainIsRecall(turns, p.contextLen);
    if pid == "" {
      NoTurnsWithoutId(turns);
    }
    if req.Some? {
      RetoldExactly(p, BotTokens(p, count).value, turns, k, Message("user", question), req.value.messages);
    }
  }

  /** Before the question stand, from its end, the answer and the question of the last turn, of the one before
    * it, and so on: `k` messages of turns that were saved completely, each question right before its answer. */
  ghost predicate Retold(turns: seq<Turn>, k: nat, messages: seq<Message>) {
    var n := |messages|;
    && k < n
    && (forall i: nat | 2 * i < k ::
          i < |turns| && turns[|turns| - 1 - i].saved.Both?
          && messages[n - 2 - 2 * i] == turns[|turns| - 1 - i].answer)
    && (forall i: nat | 2 * i + 1 < k ::
          i < |turns| && messages[n - 3 - 2 * i] == turns[|turns| - 1 - i].question)
  }

  lemma RetoldExactly(p: Params, bot: int, turns: seq<Turn>, k: nat, curr: Message, messages: seq<Message>)
    requires LaidOut(p, bot, Newest(Recall(turns), p.contextLen), k, curr, messages)
    ensures Retold(turns, k, messages)
  {
    var list := Newest(Recall(turns), p.contextLen);
    var n := |messages|;
    forall i: nat | 2 * i < k
      ensures i < |turns| && turns[|turns| - 1 - i].saved.Both?
              && messages[n - 2 - 2 * i] == turns[|turns| - 1 - i].answer {
      RecallAt(turns, i);
      assert list[2 * i] == Recall(turns)[2 * i];
    }
    forall i: nat | 2 * i + 1 < k
      ensures i < |turns| && messages[n - 3 - 2 * i] == turns[|turns| - 1 - i].question {
      RecallAt(turns, i);
      assert list[2 * i + 1] == Recall(turns)[2 * i + 1];
    }
  }

  /** Only a conversation without turns ends in the empty id. */
  lemma NoTurnsWithoutId(turns: seq<Turn>)
    requires DistinctIds(turns) && LastId(turns) == ""
    ensures Recall(turns) == []
  {
    if turns != [] {
      HistoryClosed(turns[..|turns| - 1]);
    }
  }
}
