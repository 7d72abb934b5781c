/** Conversation context: messages saved under their ids, and the walk from a message to its ancestors. */
module Context {
  datatype Message = Message(role: string, content: string)

  /** A saved message: its id, the id of the one before it, and its token count. */
  datatype Entry = Entry(id: string, pid: string, message: Message, tokens: int)

  type Entries = map<string, Entry>

  // ---------- the store over time ----------

  /** A message is saved under its id, or an id expires. */
  datatype Change = Save(e: Entry) | Expire(id: string)

  function StoreAfter(changes: seq<Change>): Entries {
    if changes == [] then map[]
    else
      var st := StoreAfter(changes[..|changes| - 1]);
      match changes[|changes| - 1]
      case Save(e) => st[e.id := e]
      case Expire(id) => st - {id}
  }

  /** Change `k` saved the message under its id, and nothing has replaced or removed it since. */
  predicate StandsSince(changes: seq<Change>, k: nat, id: string) {
    && k < |changes| && changes[k].Save? && changes[k].e.id == id
    && forall j | k < j < |changes| ::
         match changes[j]
         case Save(e) => e.id != id
         case Expire(gone) => gone != id
  }

  /** What a store holds: under each id the message saved last, unless it has expired since. */
  lemma {:induction false} StoreExactly(changes: seq<Change>, id: string, e: Entry)
    ensures id in StoreAfter(changes) && StoreAfter(changes)[id] == e <==>
            exists k: nat :: StandsSince(changes, k, id) && changes[k].e == e
  {
    if changes != [] {
      var n := |changes| - 1;
      var before := changes[..n];
      StoreExactly(before, id, e);
      if changes[n].Save? && changes[n].e.id == id {
        assert StandsSince(changes, n, id);
      } else if !(changes[n].Expire? && changes[n].id == id) {
        forall k: nat ensures StandsSince(changes, k, id) == StandsSince(before, k, id) {
          assert k < n ==> changes[k] == before[k];
          assert StandsSince(before, k, id) ==> forall j | k < j < n :: changes[j] == before[j];
          assert StandsSince(changes, k, id) ==> forall j | k < j < n :: before[j] == changes[j];
        }
        assert forall k: nat | k < n :: changes[k] == before[k];
      }
    }
  }

  /** Everything ever saved. */
  function History(changes: seq<Change>): Entries {
    if changes == [] then map[]
    else
      var h := History(changes[..|changes| - 1]);
      match changes[|changes| - 1]
      case Save(e) => h[e.id := e]
      case Expire(_) => h
  }

  ghost predicate FreshIds(changes: seq<Change>) {
    forall i, j | 0 <= i < j < |changes| && changes[i].Save? && changes[j].Save? :: changes[i].e.id != changes[j].e.id
  }

  /** `part` holds some of what `whole` holds, unchanged. */
  ghost predicate Within(part: Entries, whole: Entries) {
    forall id <- part :: id in whole && part[id] == whole[id]
  }

  ghost predicate OwnIds(h: Entries) {
    forall id <- h :: h[id].id == id
  }

  lemma {:induction false} HistoryIds(changes: seq<Change>)
    ensures OwnIds(History(changes))
    ensures forall id <- History(changes) :: exists k | 0 <= k < |changes| :: changes[k] == Save(History(changes)[id])
  {
    if changes != [] {
      var n := |changes| - 1;
      var before := changes[..n];
      HistoryIds(before);
      forall id <- History(changes) ensures exists k | 0 <= k < |changes| :: changes[k] == Save(History(changes)[id]) {
        if changes[n].Save? && changes[n].e.id == id {
          assert changes[n] == Save(History(changes)[id]);
        } else {
          var k :| 0 <= k < n && before[k] == Save(History(before)[id]);
          assert changes[k] == Save(History(changes)[id]);
        }
      }
    }
  }

  /** With fresh ids, what any moment's store holds is what was saved, now and at every later moment. */
  lemma {:induction false} StoreWithinHistory(changes: seq<Change>, n: nat)
    requires FreshIds(changes) && n <= |changes|
    ensures Within(StoreAfter(changes[..n]), History(changes))
  {
    if n == |changes| {
      assert changes[..n] == changes;
      if n > 0 {
        var before := changes[..n - 1];
        StoreWithinHistory(before, n - 1);
        assert before[..n - 1] == before;
      }
    } else {
      var m := |changes| - 1;
      var before := changes[..m];
      StoreWithinHistory(before, n);
      assert before[..n] == changes[..n];
      if changes[m].Save? {
        HistoryIds(before);
        assert changes[m].e.id !in History(before);
      }
    }
  }

  // ---------- the ancestor chain ----------

  /** The newest `n` messages of the chain that ends at `id`, newest first. */
  function Chain(h: Entries, id: string, n: nat): (c: seq<Entry>)
    ensures |c| <= n
    decreases n
  {
    if n == 0 || id !in h then [] else [h[id]] + Chain(h, h[id].pid, n - 1)
  }

  /** The id that follows the first `n` links. */
  function Link(h: Entries, id: string, n: nat): string
    decreases n
  {
    if n == 0 || id !in h then id else Link(h, h[id].pid, n - 1)
  }

  /** A list linked without gaps: it starts at `id`, each message is followed by its parent. */
  ghost predicate Linked(h: Entries, id: string, list: seq<Entry>) {
    && (forall i | 0 <= i < |list| :: list[i].id in h && h[list[i].id] == list[i])
    && (list != [] ==> list[0].id == id)
    && (forall i | 0 <= i < |list| - 1 :: list[i + 1].id == list[i].pid)
  }

  lemma {:induction false} ChainLinks(h: Entries, id: string, n: nat)
    requires OwnIds(h)
    ensures Linked(h, id, Chain(h, id, n))
    decreases n
  {
    if n > 0 && id in h {
      ChainLinks(h, h[id].pid, n - 1);
      var c := Chain(h, id, n);
      assert c[1..] == Chain(h, h[id].pid, n - 1);
      assert forall i | 0 < i < |c| :: c[i] == c[1..][i - 1];
    }
  }

  lemma LinkedTail(h: Entries, id: string, list: seq<Entry>)
    requires Linked(h, id, list) && list != []
    ensures id in h && list == [h[id]] + list[1..] && Linked(h, h[id].pid, list[1..])
  {
    var rest := list[1..];
    assert forall i | 0 <= i < |rest| :: rest[i] == list[i + 1];
  }

  /** The chain is the one linked list of its length. */
  lemma {:induction false} ChainIsLinked(h: Entries, id: string, n: nat, list: seq<Entry>)
    requires OwnIds(h)
    ensures Linked(h, id, Chain(h, id, n))
    ensures Linked(h, id, list) && |list| <= n ==> list <= Chain(h, id, n)
    decreases n
  {
    ChainLinks(h, id, n);
    if list != [] && Linked(h, id, list) && |list| <= n {
      LinkedTail(h, id, list);
      ChainIsLinked(h, h[id].pid, n - 1, list[1..]);
    }
  }

  lemma {:induction false} ChainGrows(h: Entries, id: string, n: nat)
    requires |Chain(h, id, n)| == n
    ensures var key := Link(h, id, n);
            Chain(h, id, n + 1) == if key in h then Chain(h, id, n) + [h[key]] else Chain(h, id, n)
    ensures Link(h, id, n) in h ==> Link(h, id, n + 1) == h[Link(h, id, n)].pid
    decreases n
  {
    if n > 0 {
      ChainGrows(h, h[id].pid, n - 1);
    }
  }

  lemma {:induction false} ChainShorter(h: Entries, id: string, n: nat, m: nat)
    requires n <= m
    ensures Chain(h, id, n) == if n <= |Chain(h, id, m)| then Chain(h, id, m)[..n] else Chain(h, id, m)
    decreases n
  {
    if n > 0 && id in h {
      ChainShorter(h, h[id].pid, n - 1, m - 1);
    }
  }

  // ---------- getContext ----------

  /** At read `i` the store is `stores[i]`; the reads in `broken` fail. Between reads messages may be saved
    * or expire. The walk stops at the first missing message; a failed read throws everything away. */
  method GetContext(stores: seq<Entries>, broken: set<nat>, id: string, maxLen: nat, ghost h: Entries)
    returns (list: seq<Entry>)
    requires |stores| == maxLen
    requires forall i | 0 <= i < maxLen :: Within(stores[i], h)
    ensures list == Chain(h, id, |list|) && |list| <= maxLen
    ensures list == [] || |list| == maxLen || Link(h, id, |list|) !in stores[|list|]
    ensures forall i | 0 <= i < |list| :: i !in broken && Link(h, id, i) in stores[i]
    ensures maxLen > 0 && 0 !in broken && list == [] ==>
              id !in stores[0]
              || exists i | 0 < i < maxLen :: i in broken && forall j | 0 <= j < i :: Link(h, id, j) in stores[j]
  {
    list := [];
    var key := id;
    var i := 0;
    while i < maxLen
      invariant 0 <= i <= maxLen && |list| == i
      invariant list == Chain(h, id, i) && key == Link(h, id, i)
      invariant forall j | 0 <= j < i :: j !in broken && Link(h, id, j) in stores[j]
    {
      if i in broken {
        list := [];
        return;
      }
      if key !in stores[i] {
        break;
      }
      ChainGrows(h, id, i);
      list := list + [stores[i][key]];
      key := stores[i][key].pid;
      i := i + 1;
    }
  }

  /** For every history with fresh ids and any expiries between the reads: the context is a gapless list of
    * saved ancestors; with nothing expired and nothing broken it is the whole chain, up to the limit. */
  method ContextOf(changes: seq<Change>, at: seq<nat>, broken: set<nat>, id: string, maxLen: nat)
    returns (list: seq<Entry>)
    requires FreshIds(changes) && |at| == maxLen && forall i | 0 <= i < maxLen :: at[i] <= |changes|
    ensures Linked(History(changes), id, list) && list == Chain(History(changes), id, |list|) && |list| <= maxLen
    ensures broken == {} && (forall i | 0 <= i < maxLen :: StoreAfter(changes[..at[i]]) == History(changes)) ==>
              list == Chain(History(changes), id, maxLen)
  {
    ghost var h := History(changes);
    var stores := seq(maxLen, i requires 0 <= i < maxLen => StoreAfter(changes[..at[i]]));
    forall i | 0 <= i < maxLen ensures Within(stores[i], h) {
      StoreWithinHistory(changes, at[i]);
    }
    list := GetContext(stores, broken, id, maxLen, h);
    HistoryIds(changes);
    ChainIsLinked(h, id, |list|, list);
    if |list| < maxLen {
      ChainEnds(h, id, |list|, maxLen);
    }
  }

  lemma {:induction false} ChainEnds(h: Entries, id: string, n: nat, m: nat)
    requires n <= m && |Chain(h, id, n)| == n
    ensures Link(h, id, n) !in h ==> Chain(h, id, m) == Chain(h, id, n)
    decreases n
  {
    if n > 0 {
      ChainEnds(h, h[id].pid, n - 1, m - 1);
    }
  }

  // ---------- conversations ----------

  /** What one turn leaves in the store: a model answer saves question and answer; a save that fails, or an
    * answer without id, may leave only the question; a cached or refused answer leaves nothing. */
  datatype Saved = Both | QuestionOnly | Nothing

  /** A turn: ids and entries of question and answer. The next question names `resId` as its parent. */
  datatype Turn = Turn(reqId: string, question: Message, qTokens: int, resId: string, answer: Message, aTokens: int,
                       saved: Saved)

  function LastId(turns: seq<Turn>): string {
    if turns == [] then "" else turns[|turns| - 1].resId
  }

  function Question(pid: string, t: Turn): Entry {
    Entry(t.reqId, pid, t.question, t.qTokens)
  }

  function Answer(t: Turn): Entry {
    Entry(t.resId, t.reqId, t.answer, t.aTokens)
  }

  function SavesOf(pid: string, t: Turn): seq<Change> {
    match t.saved
    case Both => [Save(Question(pid, t)), Save(Answer(t))]
    case QuestionOnly => [Save(Question(pid, t))]
    case Nothing => []
  }

  function Saves(turns: seq<Turn>): seq<Change> {
    if turns == [] then []
    else
      var before := turns[..|turns| - 1];
      Saves(before) + SavesOf(LastId(before), turns[|turns| - 1])
  }

  /** The ids a conversation has used, and the empty one that starts it. */
  function Ids(turns: seq<Turn>): set<string> {
    if turns == [] then {""}
    else
      var t := turns[|turns| - 1];
      Ids(turns[..|turns| - 1]) + {t.reqId, t.resId}
  }

  /** Every question and answer has a fresh id, saved or not. */
  predicate DistinctIds(turns: seq<Turn>) {
    turns == [] ||
    var before, t := turns[..|turns| - 1], turns[|turns| - 1];
    DistinctIds(before) && t.reqId != t.resId && t.reqId !in Ids(before) && t.resId !in Ids(before)
  }

  /** What the next question can see: the turns since the last one that was not saved completely, newest
    * message first. */
  function Recall(turns: seq<Turn>): seq<Entry> {
    if turns == [] || turns[|turns| - 1].saved != Both then []
    else
      var before, t := turns[..|turns| - 1], turns[|turns| - 1];
      [Answer(t), Question(LastId(before), t)] + Recall(before)
  }

  /** Entries `2i` and `2i + 1` are the answer and the question of the turn `i` places from the end, which was
    * saved completely, as were all after it. */
  lemma {:induction false} RecallAt(turns: seq<Turn>, i: nat)
    requires 2 * i < |Recall(turns)|
    ensures i < |turns| && 2 * i + 1 < |Recall(turns)|
    ensures var t, r := turns[|turns| - 1 - i], Recall(turns);
            t.saved.Both? && r[2 * i].message == t.answer && r[2 * i + 1].message == t.question
            && r[2 * i].id == t.resId && r[2 * i].pid == r[2 * i + 1].id == t.reqId
  {
    if i > 0 {
      var before := turns[..|turns| - 1];
      RecallAt(before, i - 1);
      assert Recall(turns)[2 * i] == Recall(before)[2 * (i - 1)];
      assert Recall(turns)[2 * i + 1] == Recall(before)[2 * (i - 1) + 1];
    }
  }

  /** How far recall goes: over all turns, or back to one that was not saved completely. */
  lemma {:induction false} RecallEnds(turns: seq<Turn>)
    ensures var n := |Recall(turns)| / 2;
            |Recall(turns)| == 2 * n && n <= |turns| && (n < |turns| ==> !turns[|turns| - 1 - n].saved.Both?)
  {
    if turns != [] {
      RecallEnds(turns[..|turns| - 1]);
    }
  }

  lemma HistoryMore(changes: seq<Change>, e: Entry)
    ensures History(changes + [Save(e)]) == History(changes)[e.id := e]
  {
    assert (changes + [Save(e)])[..|changes|] == changes;
  }

  lemma SavesMore(before: seq<Turn>, t: Turn)
    ensures Saves(before + [t]) == Saves(before) + SavesOf(LastId(before), t)
  {
    assert (before + [t])[..|before|] == before;
  }

  lemma SavesStep(before: seq<Turn>, t: Turn)
    ensures var h, q := History(Saves(before)), Question(LastId(before), t);
            History(Saves(before + [t])) ==
            match t.saved
            case Both => h[t.reqId := q][t.resId := Answer(t)]
            case QuestionOnly => h[t.reqId := q]
            case Nothing => h
  {
    var changes, q := Saves(before), Question(LastId(before), t);
    SavesMore(before, t);
    match t.saved {
      case Both =>
        HistoryMore(changes, q);
        HistoryMore(changes + [Save(q)], Answer(t));
        assert changes + [Save(q), Save(Answer(t))] == changes + [Save(q)] + [Save(Answer(t))];
      case QuestionOnly => HistoryMore(changes, q);
      case Nothing => assert changes + [] == changes;
    }
  }

  /** Messages and their parents belong to the conversation. */
  ghost predicate ClosedUnder(h: Entries, ids: set<string>) {
    forall id <- h :: id in ids && h[id].pid in ids
  }

  lemma {:induction false} HistoryClosed(turns: seq<Turn>)
    ensures ClosedUnder(History(Saves(turns)), Ids(turns)) && LastId(turns) in Ids(turns) && "" in Ids(turns)
  {
    if turns != [] {
      var before, t := turns[..|turns| - 1], turns[|turns| - 1];
      assert before + [t] == turns;
      HistoryClosed(before);
      SavesStep(before, t);
    }
  }

  /** Messages with new ids do not change an older chain. */
  lemma {:induction false} ChainFrame(h: Entries, h': Entries, ids: set<string>, id: string, n: nat)
    requires ClosedUnder(h, ids) && Within(h, h') && id in ids
    requires forall k <- h' | k in ids :: k in h
    ensures Chain(h', id, n) == Chain(h, id, n)
    decreases n
  {
    if n > 0 && id in h {
      ChainFrame(h, h', ids, h[id].pid, n - 1);
    }
  }

  lemma TwoLinks(h: Entries, id: string, n: nat)
    requires n >= 2 && id in h && h[id].pid in h
    ensures Chain(h, id, n) == [h[id], h[h[id].pid]] + Chain(h, h[h[id].pid].pid, n - 2)
  {
  }

  /** What one more turn puts in front of the chain. */
  lemma ChainStep(before: seq<Turn>, t: Turn, n: nat)
    requires DistinctIds(before + [t]) && n > 0
    ensures var c := Chain(History(Saves(before + [t])), t.resId, n);
            if t.saved != Both then c == []
            else if n == 1 then c == [Answer(t)]
            else c == [Answer(t), Question(LastId(before), t)] + Chain(History(Saves(before)), LastId(before), n - 2)
  {
    assert (before + [t])[..|before|] == before;
    var h, h' := History(Saves(before)), History(Saves(before + [t]));
    SavesStep(before, t);
    HistoryClosed(before);
    if t.saved == Both {
      if n == 1 {
        assert Chain(h', t.resId, 1) == [Answer(t)] + Chain(h', t.reqId, 0);
      } else {
        ChainFrame(h, h', Ids(before), LastId(before), n - 2);
        TwoLinks(h', t.resId, n);
      }
    }
  }

  function Newest(list: seq<Entry>, n: nat): seq<Entry> {
    if n <= |list| then list[..n] else list
  }

  lemma NewestAfterTwo(a: Entry, b: Entry, rest: seq<Entry>, n: nat)
    requires n >= 2
    ensures Newest([a, b] + rest, n) == [a, b] + Newest(rest, n - 2)
  {
  }

  lemma RecallStep(before: seq<Turn>, t: Turn)
    ensures Recall(before + [t])
         == if t.saved == Both then [Answer(t), Question(LastId(before), t)] + Recall(before) else []
  {
    assert (before + [t])[..|before|] == before;
  }

  /** What ChainStep puts in front of the newest part is what RecallStep puts in front. */
  lemma StepsAgree(c: seq<Entry>, older: seq<Entry>, r: seq<Entry>, before: seq<Turn>, t: Turn, n: nat)
    requires n > 0 && (n >= 2 ==> older == Newest(r, n - 2))
    requires if t.saved != Both then c == []
             else if n == 1 then c == [Answer(t)]
             else c == [Answer(t), Question(LastId(before), t)] + older
    ensures c == Newest(if t.saved == Both then [Answer(t), Question(LastId(before), t)] + r else [], n)
  {
    if t.saved == Both && n >= 2 {
      NewestAfterTwo(Answer(t), Question(LastId(before), t), r, n);
    }
  }

  lemma RecallGoesOn(before: seq<Turn>, t: Turn, n: nat)
    requires DistinctIds(before + [t]) && n > 0
    requires n >= 2 ==> Chain(History(Saves(before)), LastId(before), n - 2) == Newest(Recall(before), n - 2)
    ensures Chain(History(Saves(before + [t])), t.resId, n) == Newest(Recall(before + [t]), n)
  {
    var c := Chain(History(Saves(before + [t])), t.resId, n);
    var older := if n >= 2 then Chain(History(Saves(before)), LastId(before), n - 2) else [];
    ChainStep(before, t, n);
    RecallStep(before, t);
    StepsAgree(c, older, Recall(before), before, t, n);
  }

  lemma NothingRecalled(turns: seq<Turn>, n: nat)
    requires turns == [] || n == 0
    ensures Chain(History(Saves(turns)), LastId(turns), n) == [] == Newest(Recall(turns), n)
  {
  }

  /** The next question of a conversation sees exactly the turns since the last one that was not saved
    * completely, however long ago the conversation began. */
  lemma {:induction false} ChainIsRecall(turns: seq<Turn>, n: nat)
    requires DistinctIds(turns)
    ensures Chain(History(Saves(turns)), LastId(turns), n) == Newest(Recall(turns), n)
    decreases |turns|
  {
    if turns == [] || n == 0 {
      NothingRecalled(turns, n);
    } else {
      var before, t := turns[..|turns| - 1], turns[|turns| - 1];
      assert before + [t] == turns;
      if n >= 2 {
        ChainIsRecall(before, n - 2);
      }
      RecallGoesOn(before, t, n);
    }
  }

  /** The first question after a turn that was not saved completely has no context at all. */
  lemma ForgottenExactly(turns: seq<Turn>, n: nat)
    requires DistinctIds(turns) && turns != [] && n > 0
    ensures Chain(History(Saves(turns)), LastId(turns), n) == [] <==> turns[|turns| - 1].saved != Both
  {
    ChainIsRecall(turns, n);
  }
}
