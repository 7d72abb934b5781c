/** From a VSEARCH reply to one candidate: pairing, acceptance, ordering and the margin test. */
module VectorSelect {
  import opened Common

  datatype Hit = Hit(q: string, score: real)

  /** One line of a batch decision. `cached` is filled in by the client. */
  datatype BatchResult = BatchResult(cached: string, shared: bool, soft: bool)

  const NO_RESULT := BatchResult("", false, false)

  // ---------- pairing ----------

  /** The key without the namespace, or the key itself if it has none. */
  function TrimPrefix(key: string, ns: string): (q: string)
    ensures q != key <==> ns != "" && HasPrefix(key, ns)
  {
    if HasPrefix(key, ns) then key[|ns|..] else key
  }

  /** A key and its score, if the key belongs to the namespace and the score parses. */
  function ReadPair(parseScore: string -> Option<real>, ns: string, key: string, raw: string): Option<Hit> {
    if TrimPrefix(key, ns) == key then None
    else match parseScore(raw)
      case None => None
      case Some(score) => Some(Hit(TrimPrefix(key, ns), score))
  }

  /** The pair at position `i` of the flat reply. */
  function PairAt(parseScore: string -> Option<real>, ns: string, arr: seq<string>, i: nat): seq<Hit>
    requires 2 * i + 1 < |arr|
  {
    match ReadPair(parseScore, ns, arr[2 * i], arr[2 * i + 1])
    case None => []
    case Some(hit) => [hit]
  }

  function Pairs(parseScore: string -> Option<real>, ns: string, arr: seq<string>, n: nat): (r: seq<Hit>)
    requires 2 * n <= |arr|
    ensures |r| <= n
  {
    if n == 0 then [] else Pairs(parseScore, ns, arr, n - 1) + PairAt(parseScore, ns, arr, n - 1)
  }

  /** What a reply means: the reply is cut to `2 * topK` entries, an odd last entry is dropped. */
  function HitsOf(parseScore: string -> Option<real>, ns: string, topK: nat, reply: Option<seq<string>>): (r: seq<Hit>)
    ensures |r| <= topK
  {
    match reply
    case None => []
    case Some(arr) =>
      var cut := if |arr| > 2 * topK then arr[..2 * topK] else arr;
      Pairs(parseScore, ns, cut, |cut| / 2)
  }

  function Questions(hits: seq<Hit>): seq<string> {
    seq(|hits|, i requires 0 <= i < |hits| => hits[i].q)
  }

  function Scores(hits: seq<Hit>): seq<real> {
    seq(|hits|, i requires 0 <= i < |hits| => hits[i].score)
  }

  function Zip(queries: seq<string>, scores: seq<real>): seq<Hit>
    requires |queries| == |scores|
  {
    seq(|queries|, i requires 0 <= i < |queries| => Hit(queries[i], scores[i]))
  }

  lemma ZipInverts(hits: seq<Hit>)
    ensures Zip(Questions(hits), Scores(hits)) == hits
  {
  }

  lemma Snoc(hits: seq<Hit>, h: Hit)
    ensures Questions(hits + [h]) == Questions(hits) + [h.q]
    ensures Scores(hits + [h]) == Scores(hits) + [h.score]
  {
  }

  /** One key and score appended to the two lists, unless it is skipped. */
  method AppendPair(parseScore: string -> Option<real>, ns: string, key: string, raw: string,
                    queries: seq<string>, scores: seq<real>, ghost hits: seq<Hit>)
    returns (queries': seq<string>, scores': seq<real>)
    requires queries == Questions(hits) && scores == Scores(hits)
    ensures var all := hits + match ReadPair(parseScore, ns, key, raw) case None => [] case Some(hit) => [hit];
            queries' == Questions(all) && scores' == Scores(all)
  {
    queries', scores' := queries, scores;
    assert hits + [] == hits;
    var q := TrimPrefix(key, ns);
    if q == key {
      return;
    }
    var score := parseScore(raw);
    if score.None? {
      return;
    }
    Snoc(hits, Hit(q, score.value));
    queries', scores' := queries + [q], scores + [score.value];
  }

  /** The loop over the flat reply, two entries at a time. */
  method ReadPairs(parseScore: string -> Option<real>, ns: string, arr: seq<string>)
    returns (queries: seq<string>, scores: seq<real>)
    ensures queries == Questions(Pairs(parseScore, ns, arr, |arr| / 2))
    ensures scores == Scores(Pairs(parseScore, ns, arr, |arr| / 2))
  {
    queries, scores := [], [];
    var i := 0;
    ghost var n, hits := 0, [];
    while i + 1 < |arr|
      invariant i == 2 * n <= |arr|
      invariant hits == Pairs(parseScore, ns, arr, n)
      invariant queries == Questions(hits) && scores == Scores(hits)
    {
      assert 2 * n + 1 < |arr|;
      queries, scores := AppendPair(parseScore, ns, arr[i], arr[i + 1], queries, scores, hits);
      hits := hits + PairAt(parseScore, ns, arr, n);
      i, n := i + 2, n + 1;
      assert hits == Pairs(parseScore, ns, arr, n);
    }
    assert n == |arr| / 2;
  }

  /** How many pairs of a reply are looked at. */
  function Looked(topK: nat, reply: Option<seq<string>>): (n: nat)
    ensures n <= topK && 2 * n <= |reply.GetOr([])|
    ensures n < topK ==> |reply.GetOr([])| <= 2 * n + 1
  {
    var n := |reply.GetOr([])| / 2;
    if n <= topK then n else topK
  }

  /** Which of the first pairs of a reply name a question of the namespace and a score that parses. */
  ghost function Usable(parseScore: string -> Option<real>, ns: string, arr: seq<string>, n: nat): (flags: seq<bool>)
    requires 2 * n <= |arr|
    ensures |flags| == n
  {
    seq(n, j requires 0 <= j < n => ns != "" && ns <= arr[2 * j] && parseScore(arr[2 * j + 1]).Some?)
  }

  lemma UsableSnoc(parseScore: string -> Option<real>, ns: string, arr: seq<string>, n: nat)
    requires 2 * n + 1 < |arr|
    ensures var usable := ns != "" && ns <= arr[2 * n] && parseScore(arr[2 * n + 1]).Some?;
            Positions(Usable(parseScore, ns, arr, n + 1)) ==
            Positions(Usable(parseScore, ns, arr, n)) + if usable then [n] else []
  {
    var usable := ns != "" && ns <= arr[2 * n] && parseScore(arr[2 * n + 1]).Some?;
    assert Usable(parseScore, ns, arr, n + 1) == Usable(parseScore, ns, arr, n) + [usable];
    PositionsSnoc(Usable(parseScore, ns, arr, n), usable);
  }

  lemma PairsMore(parseScore: string -> Option<real>, ns: string, arr: seq<string>, n: nat)
    requires 2 * n + 1 < |arr|
    ensures Pairs(parseScore, ns, arr, n + 1) == Pairs(parseScore, ns, arr, n) + PairAt(parseScore, ns, arr, n)
  {
  }

  /** One pair: a hit with the rest of its key and the value of its own score, if it is usable. */
  lemma PairExactly(parseScore: string -> Option<real>, ns: string, arr: seq<string>, i: nat)
    requires 2 * i + 1 < |arr|
    ensures var p, usable := PairAt(parseScore, ns, arr, i),
                             ns != "" && ns <= arr[2 * i] && parseScore(arr[2 * i + 1]).Some?;
            if usable then |p| == 1 && ns + p[0].q == arr[2 * i] && Some(p[0].score) == parseScore(arr[2 * i + 1])
            else p == []
  {
    var key := arr[2 * i];
    assert ns <= key ==> key == key[..|ns|] + key[|ns|..];
  }

  /** Each hit has the question of the key, and the value of the score, of the pair at its position. */
  ghost predicate Read(parseScore: string -> Option<real>, ns: string, arr: seq<string>, at: seq<nat>, hits: seq<Hit>)
    requires forall i | 0 <= i < |at| :: 2 * at[i] + 1 < |arr|
  {
    |hits| == |at| && forall i | 0 <= i < |at| ::
      ns + hits[i].q == arr[2 * at[i]] && Some(hits[i].score) == parseScore(arr[2 * at[i] + 1])
  }

  lemma ReadMore(parseScore: string -> Option<real>, ns: string, arr: seq<string>, at: seq<nat>, hits: seq<Hit>,
                 n: nat, usable: bool, p: seq<Hit>)
    requires (forall i | 0 <= i < |at| :: 2 * at[i] + 1 < |arr|) && Read(parseScore, ns, arr, at, hits)
    requires 2 * n + 1 < |arr|
    requires if usable then |p| == 1 && ns + p[0].q == arr[2 * n] && Some(p[0].score) == parseScore(arr[2 * n + 1])
             else p == []
    ensures var at' := at + if usable then [n] else [];
            (forall i | 0 <= i < |at'| :: 2 * at'[i] + 1 < |arr|) && Read(parseScore, ns, arr, at', hits + p)
  {
    if !usable {
      assert at + [] == at && hits + p == hits;
    }
  }

  lemma PairsStep(parseScore: string -> Option<real>, ns: string, arr: seq<string>, n: nat)
    requires 2 * n + 1 < |arr|
    requires Read(parseScore, ns, arr, Positions(Usable(parseScore, ns, arr, n)), Pairs(parseScore, ns, arr, n))
    ensures Read(parseScore, ns, arr, Positions(Usable(parseScore, ns, arr, n + 1)), Pairs(parseScore, ns, arr, n + 1))
  {
    PairExactly(parseScore, ns, arr, n);
    UsableSnoc(parseScore, ns, arr, n);
    PairsMore(parseScore, ns, arr, n);
    ReadMore(parseScore, ns, arr, Positions(Usable(parseScore, ns, arr, n)), Pairs(parseScore, ns, arr, n), n,
             ns != "" && ns <= arr[2 * n] && parseScore(arr[2 * n + 1]).Some?, PairAt(parseScore, ns, arr, n));
  }

  /** The hits of a reply are, in order, its usable pairs: each has the question of its own key and the value
    * of its own score. */
  lemma {:induction false} PairsExactly(parseScore: string -> Option<real>, ns: string, arr: seq<string>, n: nat)
    requires 2 * n <= |arr|
    ensures Read(parseScore, ns, arr, Positions(Usable(parseScore, ns, arr, n)), Pairs(parseScore, ns, arr, n))
  {
    if n > 0 {
      PairsExactly(parseScore, ns, arr, n - 1);
      PairsStep(parseScore, ns, arr, n - 1);
    }
  }

  lemma {:induction false} PairsOfCut(parseScore: string -> Option<real>, ns: string, arr: seq<string>, cut: nat,
                                      n: nat)
    requires 2 * n <= cut <= |arr|
    ensures Pairs(parseScore, ns, arr[..cut], n) == Pairs(parseScore, ns, arr, n)
  {
    if n > 0 {
      PairsOfCut(parseScore, ns, arr, cut, n - 1);
    }
  }

  lemma HitsOfPairs(parseScore: string -> Option<real>, ns: string, topK: nat, reply: Option<seq<string>>)
    ensures HitsOf(parseScore, ns, topK, reply) == Pairs(parseScore, ns, reply.GetOr([]), Looked(topK, reply))
  {
    if reply.Some? && |reply.value| > 2 * topK {
      PairsOfCut(parseScore, ns, reply.value, 2 * topK, topK);
    }
  }

  /** Questions and scores stay aligned: they are, in order, those of the first `topK` pairs whose key has the
    * namespace and whose score parses. */
  method VSearch(parseScore: string -> Option<real>, ns: string, topK: nat, reply: Option<seq<string>>)
    returns (queries: seq<string>, scores: seq<real>)
    ensures queries == Questions(HitsOf(parseScore, ns, topK, reply))
    ensures scores == Scores(HitsOf(parseScore, ns, topK, reply))
    ensures var arr := reply.GetOr([]);
            var at := Positions(Usable(parseScore, ns, arr, Looked(topK, reply)));
            |queries| == |scores| == |at| && forall i | 0 <= i < |at| ::
              ns + queries[i] == arr[2 * at[i]] && Some(scores[i]) == parseScore(arr[2 * at[i] + 1])
  {
    HitsOfPairs(parseScore, ns, topK, reply);
    PairsExactly(parseScore, ns, reply.GetOr([]), Looked(topK, reply));
    queries, scores := [], [];
    if reply == None || |reply.value| < 2 {
      return;
    }
    var arr := reply.value;
    if |arr| > 2 * topK {
      arr := arr[..2 * topK];
    }
    queries, scores := ReadPairs(parseScore, ns, arr);
  }

  lemma PairKey(parseScore: string -> Option<real>, ns: string, arr: seq<string>, i: nat, h: Hit)
    requires 2 * i + 1 < |arr| && h in PairAt(parseScore, ns, arr, i)
    ensures ns + h.q == arr[2 * i]
  {
    var key := arr[2 * i];
    assert ns <= key ==> key == key[..|ns|] + key[|ns|..];
  }

  lemma {:induction false} PairOfHit(parseScore: string -> Option<real>, ns: string, arr: seq<string>, n: nat, h: Hit)
    returns (i: nat)
    requires 2 * n <= |arr| && h in Pairs(parseScore, ns, arr, n)
    ensures i < n && h in PairAt(parseScore, ns, arr, i)
  {
    i := n - 1;
    if h !in PairAt(parseScore, ns, arr, i) {
      i := PairOfHit(parseScore, ns, arr, i, h);
    }
  }

  /** Every hit comes from one entry of the reply: its key is the namespace followed by the question. */
  lemma HitsComeFromReply(parseScore: string -> Option<real>, ns: string, arr: seq<string>, n: nat, h: Hit)
    requires 2 * n <= |arr|
    requires h in Pairs(parseScore, ns, arr, n)
    ensures ns + h.q in arr
  {
    var i := PairOfHit(parseScore, ns, arr, n, h);
    PairKey(parseScore, ns, arr, i, h);
  }

  // ---------- alignment of the batch decision ----------

  function AlignAt(candidates: seq<string>, reply: Option<seq<BatchResult>>, i: nat): BatchResult
    requires i < |candidates|
  {
    match reply
    case None => NO_RESULT
    case Some(rs) => if i < |rs| then rs[i].(cached := candidates[i]) else BatchResult(candidates[i], false, false)
  }

  function Align(candidates: seq<string>, reply: Option<seq<BatchResult>>): (r: seq<BatchResult>)
    ensures |r| == |candidates|
  {
    seq(|candidates|, i requires 0 <= i < |candidates| => AlignAt(candidates, reply, i))
  }

  /** One result per candidate whatever the service sent: missing lines count as a refusal, extra ones are cut. */
  method DecisionBatch(candidates: seq<string>, reply: Option<seq<BatchResult>>) returns (out: seq<BatchResult>)
    ensures out == Align(candidates, reply)
    ensures |out| == |candidates| && forall i | 0 <= i < |out| ::
              if reply.Some? && i < |reply.value| then out[i] == reply.value[i].(cached := candidates[i])
              else !out[i].shared
  {
    if reply == None {
      return seq(|candidates|, _ => NO_RESULT);
    }
    out := [];
    for i := 0 to |candidates|
      invariant |out| == i
      invariant forall k | 0 <= k < i :: out[k] == AlignAt(candidates, reply, k)
    {
      if i < |reply.value| {
        out := out + [reply.value[i].(cached := candidates[i])];
      } else {
        out := out + [BatchResult(candidates[i], false, false)];
      }
    }
  }

  // ---------- acceptance ----------

  predicate Accepts(acceptance: real, soft: bool, h: Hit, d: BatchResult) {
    d.shared && h.score >= acceptance && (d.soft ==> soft)
  }

  function Accepted(acceptance: real, soft: bool, hits: seq<Hit>, decs: seq<BatchResult>): seq<Hit>
    requires |decs| == |hits|
  {
    if hits == [] then []
    else
      var n := |hits| - 1;
      Accepted(acceptance, soft, hits[..n], decs[..n])
      + if Accepts(acceptance, soft, hits[n], decs[n]) then [hits[n]] else []
  }

  lemma {:induction false} AcceptedExactly(acceptance: real, soft: bool, hits: seq<Hit>, decs: seq<BatchResult>, h: Hit)
    requires |decs| == |hits|
    ensures h in Accepted(acceptance, soft, hits, decs)
       <==> exists i | 0 <= i < |hits| ::
              hits[i] == h && decs[i].shared && h.score >= acceptance && (decs[i].soft ==> soft)
  {
    if hits != [] {
      var n := |hits| - 1;
      AcceptedExactly(acceptance, soft, hits[..n], decs[..n], h);
      if i :| 0 <= i < |hits| && hits[i] == h && Accepts(acceptance, soft, h, decs[i]) {
        if i < n {
          assert hits[..n][i] == h && decs[..n][i] == decs[i];
        }
      }
    }
  }

  method CollectAccepted(acceptance: real, soft: bool, queries: seq<string>, scores: seq<real>, decs: seq<BatchResult>)
    returns (accepted: seq<Hit>)
    requires |queries| == |scores| == |decs|
    ensures accepted == Accepted(acceptance, soft, Zip(queries, scores), decs)
  {
    ghost var hits := Zip(queries, scores);
    accepted := [];
    for i := 0 to |queries|
      invariant accepted == Accepted(acceptance, soft, hits[..i], decs[..i])
    {
      assert hits[..i + 1][..i] == hits[..i] && decs[..i + 1][..i] == decs[..i];
      if !decs[i].shared {
        continue;
      }
      if scores[i] < acceptance {
        continue;
      }
      if decs[i].soft && !soft {
        continue;
      }
      accepted := accepted + [Hit(queries[i], scores[i])];
    }
    assert hits[..|queries|] == hits && decs[..|queries|] == decs;
  }

  // ---------- ordering ----------

  /** Lexicographic order of strings, as Go compares them. */
  predicate StringLess(s: string, t: string) {
    t != "" && (s == "" || s[0] < t[0] || (s[0] == t[0] && StringLess(s[1..], t[1..])))
  }

  lemma {:induction false} StringTrichotomy(s: string, t: string)
    ensures StringLess(s, t) || s == t || StringLess(t, s)
    ensures !(StringLess(s, t) && StringLess(t, s)) && !StringLess(s, s)
  {
    if s != "" {
      StringTrichotomy(s[1..], s[1..]);
    }
    if s != "" && t != "" {
      StringTrichotomy(s[1..], t[1..]);
      if s[0] == t[0] && s[1..] == t[1..] {
        assert s == [s[0]] + s[1..] && t == [t[0]] + t[1..];
      }
    }
  }

  lemma {:induction false} StringTransitive(s: string, t: string, u: string)
    requires StringLess(s, t) && StringLess(t, u)
    ensures StringLess(s, u)
  {
    if s != "" && s[0] == t[0] == u[0] {
      StringTransitive(s[1..], t[1..], u[1..]);
    }
  }

  /** The first difference of two strings. */
  predicate DiffersAt(s: string, t: string, i: nat) {
    i < |s| && i < |t| && s[..i] == t[..i] && s[i] != t[i]
  }

  lemma DiffersBehind(s: string, t: string, i: nat)
    requires s != "" && t != "" && s[0] == t[0]
    ensures DiffersAt(s, t, i + 1) <==> DiffersAt(s[1..], t[1..], i)
    ensures !DiffersAt(s, t, 0) && (s < t <==> s[1..] < t[1..])
  {
    assert s == [s[0]] + s[1..] && t == [t[0]] + t[1..];
    if i < |s| - 1 && i < |t| - 1 {
      assert s[..i + 1] == [s[0]] + s[1..][..i] && t[..i + 1] == [t[0]] + t[1..][..i];
      assert s[..i + 1][1..] == s[1..][..i] && t[..i + 1][1..] == t[1..][..i];
    }
  }

  lemma DiffersFirst(s: string, t: string, i: nat)
    requires s != "" && t != "" && s[0] != t[0]
    ensures DiffersAt(s, t, i) <==> i == 0
    ensures !(s < t)
  {
    assert i > 0 && i < |s| && i < |t| ==> s[..i] != t[..i] by {
      if i > 0 && i < |s| && i < |t| {
        assert s[..i][0] != t[..i][0];
      }
    }
  }

  /** The order of strings: a proper prefix comes first, and otherwise the first difference decides. */
  lemma {:induction false} StringLessExactly(s: string, t: string)
    ensures StringLess(s, t) <==> s < t || exists i: nat :: DiffersAt(s, t, i) && s[i] < t[i]
  {
    if s != "" && t != "" {
      if s[0] == t[0] {
        StringLessExactly(s[1..], t[1..]);
        DiffersBehind(s, t, 0);
        if i: nat :| DiffersAt(s[1..], t[1..], i) && s[1..][i] < t[1..][i] {
          DiffersBehind(s, t, i);
        }
        if i: nat :| DiffersAt(s, t, i) && s[i] < t[i] {
          DiffersBehind(s, t, i - 1);
        }
      } else {
        DiffersFirst(s, t, 0);
        if i: nat :| DiffersAt(s, t, i) && s[i] < t[i] {
          DiffersFirst(s, t, i);
        }
      }
    }
  }

  /** Strictly ahead in the ranking: the higher score, then the smaller question. */
  predicate Ahead(a: Hit, b: Hit) {
    if a.score != b.score then a.score > b.score else StringLess(a.q, b.q)
  }

  lemma AheadTotal(a: Hit, b: Hit)
    ensures Ahead(a, b) || a == b || Ahead(b, a)
    ensures !(Ahead(a, b) && Ahead(b, a))
  {
    StringTrichotomy(a.q, b.q);
  }

  lemma AheadTransitive(a: Hit, b: Hit, c: Hit)
    requires Ahead(a, b) && Ahead(b, c)
    ensures Ahead(a, c)
  {
    if a.score == b.score == c.score {
      StringTransitive(a.q, b.q, c.q);
    }
  }

  /** The stable sort of the library, as insertion from the right. */
  function Insert(h: Hit, s: seq<Hit>): seq<Hit> {
    if s == [] then [h]
    else if Ahead(s[0], h) then [s[0]] + Insert(h, s[1..])
    else [h] + s
  }

  function SortAhead(s: seq<Hit>): seq<Hit> {
    if s == [] then [] else Insert(s[0], SortAhead(s[1..]))
  }

  lemma {:induction false} InsertPermutes(h: Hit, s: seq<Hit>)
    ensures multiset(Insert(h, s)) == multiset(s) + multiset{h}
  {
    if s != [] {
      assert s == [s[0]] + s[1..];
      InsertPermutes(h, s[1..]);
    }
  }

  lemma {:induction false} SortPermutes(s: seq<Hit>)
    ensures multiset(SortAhead(s)) == multiset(s)
  {
    if s != [] {
      assert s == [s[0]] + s[1..];
      SortPermutes(s[1..]);
      InsertPermutes(s[0], SortAhead(s[1..]));
    }
  }

  ghost predicate Ranked(s: seq<Hit>) {
    forall i, j | 0 <= i < j < |s| :: s[i] == s[j] || Ahead(s[i], s[j])
  }

  lemma RankedCons(x: Hit, s: seq<Hit>)
    requires Ranked(s) && forall y <- s :: y == x || Ahead(x, y)
    ensures Ranked([x] + s)
  {
    var t := [x] + s;
    forall i, j | 0 <= i < j < |t| ensures t[i] == t[j] || Ahead(t[i], t[j]) {
      assert t[j] == s[j - 1] && (i > 0 ==> t[i] == s[i - 1]);
    }
  }

  lemma {:induction false} InsertRanked(h: Hit, s: seq<Hit>)
    requires Ranked(s)
    ensures Ranked(Insert(h, s))
  {
    if s != [] {
      AheadTotal(s[0], h);
      if Ahead(s[0], h) {
        InsertRanked(h, s[1..]);
        InsertPermutes(h, s[1..]);
        forall x | x in Insert(h, s[1..]) ensures x == s[0] || Ahead(s[0], x) {
          assert x in multiset(Insert(h, s[1..]));
        }
        RankedCons(s[0], Insert(h, s[1..]));
      } else {
        forall x | x in s ensures x == h || Ahead(h, x) {
          if x != s[0] && h != s[0] {
            AheadTransitive(h, s[0], x);
          }
        }
        RankedCons(h, s);
      }
    }
  }

  lemma {:induction false} SortRanked(s: seq<Hit>)
    ensures Ranked(SortAhead(s)) && multiset(SortAhead(s)) == multiset(s)
  {
    SortPermutes(s);
    if s != [] {
      SortRanked(s[1..]);
      InsertRanked(s[0], SortAhead(s[1..]));
    }
  }

  // ---------- choice ----------

  /** The best candidate, unless the runner-up is too close. */
  function Choose(minMargin: real, accepted: seq<Hit>): Option<Hit> {
    var s := SortAhead(accepted);
    if |s| == 0 then None
    else if |s| > 1 && s[0].score - s[1].score < minMargin then None
    else Some(s[0])
  }

  /** The chosen candidate is ahead of every other accepted one, and every accepted position but its
    * own trails by at least the margin. */
  lemma ChooseIsBest(minMargin: real, accepted: seq<Hit>, best: Hit)
    requires Choose(minMargin, accepted) == Some(best)
    ensures best in accepted
    ensures forall h <- accepted :: h == best || Ahead(best, h)
    ensures forall h <- multiset(accepted) - multiset{best} :: best.score - h.score >= minMargin
  {
    var s := SortAhead(accepted);
    SortRanked(accepted);
    RankedHead(accepted, s);
    forall h | h in multiset(accepted) - multiset{best} ensures best.score - h.score >= minMargin {
      RunnerUp(s, h);
    }
  }

  /** At the top of the ranking with a rival inside the margin. */
  ghost predicate Contested(minMargin: real, accepted: seq<Hit>, a: Hit, b: Hit) {
    && a in accepted && b in multiset(accepted) - multiset{a}
    && (forall h <- accepted :: h == a || Ahead(a, h))
    && a.score - b.score < minMargin
  }

  /** The choice misses exactly when nothing was accepted or the best candidate is contested. */
  lemma ChooseMisses(minMargin: real, accepted: seq<Hit>)
    ensures Choose(minMargin, accepted) == None <==>
            accepted == [] || exists a, b :: Contested(minMargin, accepted, a, b)
  {
    var s := SortAhead(accepted);
    SortRanked(accepted);
    if accepted != [] {
      assert accepted[0] in multiset(s);
      RankedHead(accepted, s);
      if Choose(minMargin, accepted) == None {
        assert Contested(minMargin, accepted, s[0], s[1]);
      } else if a, b :| Contested(minMargin, accepted, a, b) {
        AheadTotal(a, s[0]);
        ChooseIsBest(minMargin, accepted, s[0]);
      }
    } else {
      assert |multiset(s)| == 0;
    }
  }

  /** `h` is accepted, ahead of every other accepted hit, and leads every position but its own by the margin. */
  ghost predicate Leads(minMargin: real, accepted: seq<Hit>, h: Hit) {
    && h in accepted
    && (forall x <- accepted :: x == h || Ahead(h, x))
    && (forall x <- multiset(accepted) - multiset{h} :: h.score - x.score >= minMargin)
  }

  /** A candidate is chosen exactly when it leads. */
  lemma ChooseExactly(minMargin: real, accepted: seq<Hit>, h: Hit)
    ensures Choose(minMargin, accepted) == Some(h) <==> Leads(minMargin, accepted, h)
  {
    if Choose(minMargin, accepted) == Some(h) {
      ChooseIsBest(minMargin, accepted, h);
    } else if Leads(minMargin, accepted, h) {
      LeaderIsFirst(minMargin, accepted, SortAhead(accepted), h);
    }
  }

  lemma LeaderIsFirst(minMargin: real, accepted: seq<Hit>, s: seq<Hit>, h: Hit)
    requires Leads(minMargin, accepted, h) && s == SortAhead(accepted)
    ensures s != [] && s[0] == h && (|s| > 1 ==> h.score - s[1].score >= minMargin)
  {
    SortRanked(accepted);
    assert h in multiset(s);
    RankedHead(accepted, s);
    AheadTotal(h, s[0]);
  }

  /** The library sort: hits in ranking order, none lost or added. */
  method SortHits(accepted: seq<Hit>) returns (ranked: seq<Hit>)
    ensures Ranked(ranked) && multiset(ranked) == multiset(accepted)
  {
    ranked := [];
    for i := 0 to |accepted|
      invariant Ranked(ranked) && multiset(ranked) == multiset(accepted[..i])
    {
      InsertRanked(accepted[i], ranked);
      InsertPermutes(accepted[i], ranked);
      assert accepted[..i + 1] == accepted[..i] + [accepted[i]];
      ranked := Insert(accepted[i], ranked);
    }
    assert accepted[..|accepted|] == accepted;
  }

  /** Sort, then compare the first two scores. */
  method PickBest(minMargin: real, accepted: seq<Hit>) returns (best: Option<Hit>)
    ensures best.Some? ==> Leads(minMargin, accepted, best.value)
    ensures best.None? ==> accepted == [] || exists a, b :: Contested(minMargin, accepted, a, b)
  {
    var ranked := SortHits(accepted);
    if |ranked| == 0 {
      assert |multiset(accepted)| == 0;
      return None;
    }
    RankedHead(accepted, ranked);
    if |ranked| > 1 && ranked[0].score - ranked[1].score < minMargin {
      assert Contested(minMargin, accepted, ranked[0], ranked[1]);
      return None;
    }
    forall x | x in multiset(accepted) - multiset{ranked[0]} ensures ranked[0].score - x.score >= minMargin {
      RunnerUp(ranked, x);
    }
    best := Some(ranked[0]);
  }

  /** What PickBest promises determines the choice. */
  method PickChoice(minMargin: real, accepted: seq<Hit>) returns (best: Option<Hit>)
    ensures best == Choose(minMargin, accepted)
  {
    best := PickBest(minMargin, accepted);
    if best.Some? {
      ChooseExactly(minMargin, accepted, best.value);
    } else {
      ChooseMisses(minMargin, accepted);
    }
  }

  lemma RestOf(s: seq<Hit>)
    requires s != []
    ensures multiset(s) - multiset{s[0]} == multiset(s[1..])
    ensures forall i | 1 <= i < |s| :: s[i] in multiset(s[1..])
  {
    assert s == [s[0]] + s[1..];
    forall i | 1 <= i < |s| ensures s[i] in multiset(s[1..]) {
      assert s[i] == s[1..][i - 1];
    }
  }

  lemma RankedHead(accepted: seq<Hit>, s: seq<Hit>)
    requires s != [] && Ranked(s) && multiset(s) == multiset(accepted)
    ensures s[0] in accepted && forall h <- accepted :: h == s[0] || Ahead(s[0], h)
    ensures forall i | 1 <= i < |s| :: s[i] in multiset(accepted) - multiset{s[0]}
    ensures multiset(accepted) - multiset{s[0]} == multiset(s[1..])
  {
    RestOf(s);
    assert s[0] in multiset(s);
    forall h | h in accepted ensures h == s[0] || Ahead(s[0], h) {
      assert h in multiset(s);
    }
  }

  lemma RunnerUp(s: seq<Hit>, h: Hit)
    requires s != [] && Ranked(s) && h in s[1..]
    ensures s[1].score >= h.score
  {
  }

  /** The order in which the store listed its hits does not influence the choice. */
  lemma ChoiceIgnoresOrder(minMargin: real, a: seq<Hit>, b: seq<Hit>)
    requires multiset(a) == multiset(b)
    ensures Choose(minMargin, a) == Choose(minMargin, b)
  {
    SortRanked(a);
    SortRanked(b);
    RankedUnique(SortAhead(a), SortAhead(b));
  }

  lemma SameHead(s: seq<Hit>, t: seq<Hit>)
    requires s != [] && Ranked(s) && Ranked(t) && multiset(s) == multiset(t)
    ensures t != [] && s[0] == t[0] && multiset(s[1..]) == multiset(t[1..])
  {
    assert s[0] in multiset(t);
    RankedHead(s, s);
    RankedHead(s, t);
    AheadTotal(s[0], t[0]);
  }

  lemma {:induction false} RankedUnique(s: seq<Hit>, t: seq<Hit>)
    requires Ranked(s) && Ranked(t) && multiset(s) == multiset(t)
    ensures s == t
  {
    if s == [] {
      assert |multiset(t)| == 0;
    } else {
      SameHead(s, t);
      RankedUnique(s[1..], t[1..]);
      assert s == [s[0]] + s[1..] && t == [t[0]] + t[1..];
    }
  }

  /** The chosen candidate is one of the hits, its own decision accepted it, and its key is in the reply. */
  lemma ChosenHit(parseScore: string -> Option<real>, ns: string, topK: nat, reply: Option<seq<string>>,
                  acceptance: real, soft: bool, decs: seq<BatchResult>, minMargin: real, best: Hit) returns (i: nat)
    requires |decs| == |HitsOf(parseScore, ns, topK, reply)|
    requires Choose(minMargin, Accepted(acceptance, soft, HitsOf(parseScore, ns, topK, reply), decs)) == Some(best)
    ensures i < |decs| && HitsOf(parseScore, ns, topK, reply)[i] == best && Accepts(acceptance, soft, best, decs[i])
    ensures reply.Some? && ns + best.q in reply.value
  {
    var hits := HitsOf(parseScore, ns, topK, reply);
    ChooseIsBest(minMargin, Accepted(acceptance, soft, hits, decs), best);
    AcceptedExactly(acceptance, soft, hits, decs, best);
    i :| 0 <= i < |hits| && hits[i] == best && Accepts(acceptance, soft, best, decs[i]);
    var arr := reply.value;
    var cut := if |arr| > 2 * topK then arr[..2 * topK] else arr;
    assert hits == Pairs(parseScore, ns, cut, |cut| / 2);
    HitsComeFromReply(parseScore, ns, cut, |cut| / 2, best);
  }
}
