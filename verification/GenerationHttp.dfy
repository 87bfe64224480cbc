/** Reconciliation of generated replies with captured chat exchanges, as pilot/quality_eval/records.py and
    ifeval.py do it. */
module GenerationHttp {
  import opened Common
  import opened Text

  const CONTEXT: int := 4096
  const MAX_GEN_TOKS: int := 1280
  const SEED: int := 1234
  const MODEL_NAME := "jaull-gguf"

  /** wellTyped: the payload has exactly the audited keys, with the audited JSON types, and one user turn. */
  datatype ChatRequest = ChatRequest(
    wellTyped: bool, content: string, model: string, maxTokens: int, temperature: real, stop: seq<string>, seed: int)

  /** finish: the finish reason when there is exactly one assistant choice with text and no reasoning. */
  datatype ChatResponse = ChatResponse(
    fingerprint: string, audited: bool, reply: string, finish: string,
    promptTokens: int, completionTokens: int, cachedTokens: int)

  datatype Exchange =
    | Failed
    | UnknownUrl
    | Chat(request: ChatRequest, response: ChatResponse, rendered: Option<string>)

  predicate Blank(s: string) { forall i :: 0 <= i < |s| ==> IsSpace(s[i]) }

  predicate RequestOk(q: ChatRequest) {
    && q.wellTyped && !Blank(q.content) && q.model == MODEL_NAME && q.maxTokens == MAX_GEN_TOKS
    && q.temperature == 0.0 && q.stop == [] && q.seed == SEED
  }

  predicate ResponseOk(r: ChatResponse, expected: string) {
    && r.fingerprint == expected && r.audited && r.finish in {"stop", "length"}
    && r.promptTokens > 0 && 0 <= r.completionTokens <= MAX_GEN_TOKS
    && r.promptTokens + MAX_GEN_TOKS <= CONTEXT && r.cachedTokens == 0
  }

  predicate ExchangeOk(x: Exchange, expected: string) {
    x.Chat? && RequestOk(x.request) && ResponseOk(x.response, expected) && x.rendered.Some? && !Blank(x.rendered.value)
  }

  datatype Sample = Sample(prompt: string, resps: seq<seq<string>>, filtered: seq<string>)

  datatype Reply = Reply(text: string, finish: string)

  function ReplyOf(x: Exchange): Reply
    requires x.Chat?
  {
    Reply(x.response.reply, x.response.finish)
  }

  predicate AllOk(log: seq<Exchange>, expected: string) {
    forall i :: 0 <= i < |log| ==> ExchangeOk(log[i], expected)
  }

  predicate PromptsDistinct(log: seq<Exchange>)
    requires forall i :: 0 <= i < |log| ==> log[i].Chat?
  {
    forall i, j :: 0 <= i < j < |log| ==> log[i].request.content != log[j].request.content
  }

  /** Exchange j is the one that answered sample i, and the sample kept its exact text. */
  predicate Answers(x: Exchange, s: Sample) {
    x.Chat? && x.request.content == s.prompt && s.resps == [[x.response.reply]] && s.filtered == [x.response.reply]
  }

  /** A pairing of samples and exchanges that leaves none of either out. */
  ghost predicate Bijection(pairing: seq<nat>, log: seq<Exchange>, samples: seq<Sample>) {
    && |pairing| == |samples| == |log|
    && (forall i :: 0 <= i < |pairing| ==> pairing[i] < |log| && Answers(log[pairing[i]], samples[i]))
    && (forall i, j :: 0 <= i < j < |pairing| ==> pairing[i] != pairing[j])
  }

  ghost predicate Accepts(log: seq<Exchange>, samples: seq<Sample>, expected: string) {
    && log != [] && AllOk(log, expected) && PromptsDistinct(log)
    && exists pairing :: Bijection(pairing, log, samples)
  }

  datatype Outcome = Outcome(responses: nat, truncated: nat)

  function Truncated(finishes: seq<string>): nat {
    if finishes == [] then 0
    else Truncated(finishes[..|finishes| - 1]) + (if finishes[|finishes| - 1] == "length" then 1 else 0)
  }

  function FinishesOf(log: seq<Exchange>): seq<string>
    requires forall i :: 0 <= i < |log| ==> log[i].Chat?
  {
    seq(|log|, i requires 0 <= i < |log| => log[i].response.finish)
  }

  /** The truncated exchanges among some indexes of the log. */
  function CutShort(log: seq<Exchange>, indexes: set<nat>): set<nat>
    requires forall i :: 0 <= i < |log| ==> log[i].Chat?
  {
    set i | i in indexes && i < |log| && log[i].response.finish == "length"
  }

  function Indexes(n: nat): set<nat> { if n == 0 then {} else Indexes(n - 1) + {n - 1} }

  lemma {:induction false} IndexIn(n: nat, k: nat)
    ensures k in Indexes(n) <==> k < n
  {
    if n > 0 {
      IndexIn(n - 1, k);
    }
  }

  lemma IndexesAre(n: nat)
    ensures forall k: nat :: k in Indexes(n) <==> k < n
    ensures |Indexes(n)| == n
  {
    forall k: nat ensures k in Indexes(n) <==> k < n {
      IndexIn(n, k);
    }
    IndexCount(n);
  }

  lemma {:induction false} IndexCount(n: nat)
    ensures |Indexes(n)| == n
  {
    if n > 0 {
      IndexCount(n - 1);
      IndexIn(n - 1, n - 1);
    }
  }

  lemma OneMoreFinish(log: seq<Exchange>, n: nat)
    requires n < |log| && forall i :: 0 <= i < |log| ==> log[i].Chat?
    ensures Truncated(FinishesOf(log[..n + 1]))
         == Truncated(FinishesOf(log[..n])) + (if log[n].response.finish == "length" then 1 else 0)
  {
    var finishes := FinishesOf(log[..n + 1]);
    assert finishes[..n] == FinishesOf(log[..n]);
  }

  lemma {:induction false} TruncatedCounts(log: seq<Exchange>, n: nat)
    requires n <= |log| && forall i :: 0 <= i < |log| ==> log[i].Chat?
    ensures Truncated(FinishesOf(log[..n])) == |CutShort(log, Indexes(n))|
  {
    if n > 0 {
      TruncatedCounts(log, n - 1);
      OneMoreFinish(log, n - 1);
      IndexIn(n - 1, n - 1);
      CutShortGrows(log, Indexes(n - 1), n - 1);
    }
  }

  lemma TruncatedAre(log: seq<Exchange>)
    requires forall i :: 0 <= i < |log| ==> log[i].Chat?
    ensures Truncated(FinishesOf(log)) == |set i: nat | i < |log| && log[i].response.finish == "length"|
  {
    IndexesAre(|log|);
    TruncatedCounts(log, |log|);
    assert log[..|log|] == log;
    assert CutShort(log, Indexes(|log|)) == set i: nat | i < |log| && log[i].response.finish == "length";
  }

  /** The sample that keeps exactly what this exchange returned. */
  function Kept(x: Exchange): Sample
    requires x.Chat?
  {
    Sample(x.request.content, [[x.response.reply]], [x.response.reply])
  }

  /** One audited turn at zero temperature with the pinned seed and budget, answered by the expected build with
      nothing cached. */
  predicate Audited(x: Exchange, expected: string) {
    && x.Chat? && !Blank(x.request.content)
    && x.request == ChatRequest(true, x.request.content, "jaull-gguf", 1280, 0.0, [], 1234)
    && x.response.fingerprint == expected && x.response.audited
    && (x.response.finish == "stop" || x.response.finish == "length")
    && 0 < x.response.promptTokens <= 2816 && 0 <= x.response.completionTokens <= 1280 && x.response.cachedTokens == 0
    && x.rendered.Some? && !Blank(x.rendered.value)
  }

  /** What acceptance means for each side: every exchange is audited and kept by a sample, and every sample is what
      some exchange returned, for a prompt no other sample has. */
  lemma AcceptedIsExact(log: seq<Exchange>, samples: seq<Sample>, expected: string)
    requires Accepts(log, samples, expected)
    ensures |samples| == |log| > 0
    ensures forall j :: 0 <= j < |log| ==> log[j].Chat? && Audited(log[j], expected) && Kept(log[j]) in samples
    ensures forall s :: s in samples ==> exists j :: 0 <= j < |log| && log[j].Chat? && s == Kept(log[j])
    ensures forall i, j :: 0 <= i < j < |samples| ==> samples[i].prompt != samples[j].prompt
  {
    var pairing :| Bijection(pairing, log, samples);
    forall j | 0 <= j < |log| ensures log[j].Chat? && Audited(log[j], expected) && Kept(log[j]) in samples {
      assert ExchangeOk(log[j], expected);
      EachIsKept(log, samples, pairing, j);
    }
    forall i | 0 <= i < |samples| ensures pairing[i] < |log| && log[pairing[i]].Chat? && samples[i] == Kept(log[pairing[i]]) {
      assert Answers(log[pairing[i]], samples[i]);
    }
    forall i, j | 0 <= i < j < |samples| ensures samples[i].prompt != samples[j].prompt {
      assert pairing[i] != pairing[j];
    }
  }

  lemma EachIsKept(log: seq<Exchange>, samples: seq<Sample>, pairing: seq<nat>, j: nat)
    requires Bijection(pairing, log, samples) && j < |log| && log[j].Chat?
    ensures Kept(log[j]) in samples
  {
    var i := PairedWith(pairing, |log|, j);
    assert Answers(log[pairing[i]], samples[i]);
    assert samples[i] == Kept(log[j]);
  }

  function Reached(s: seq<nat>): set<nat> { set k | k in s }

  /** As many different indexes as there are reach every one. */
  lemma PairedWith(pairing: seq<nat>, n: nat, j: nat) returns (i: nat)
    requires |pairing| == n && j < n
    requires forall i :: 0 <= i < n ==> pairing[i] < n
    requires forall i, k :: 0 <= i < k < n ==> pairing[i] != pairing[k]
    ensures i < n && pairing[i] == j
  {
    DistinctCount(pairing);
    IndexesAre(n);
    assert Reached(pairing) <= Indexes(n);
    SameSizeSubset(Reached(pairing), Indexes(n));
    assert j in Reached(pairing);
    i :| 0 <= i < n && pairing[i] == j;
  }

  lemma OneMoreReached(s: seq<nat>)
    requires s != []
    ensures Reached(s) == Reached(s[..|s| - 1]) + {s[|s| - 1]}
  {
    assert s == s[..|s| - 1] + [s[|s| - 1]];
  }

  lemma {:induction false} DistinctCount(s: seq<nat>)
    requires Distinct(s)
    ensures |Reached(s)| == |s|
  {
    if s != [] {
      var before := s[..|s| - 1];
      assert Distinct(before);
      DistinctCount(before);
      OneMoreReached(s);
      assert s[|s| - 1] !in Reached(before);
    }
  }

  /** Conversely, samples that keep what audited exchanges with different prompts returned are accepted, in
      whatever order they come. */
  lemma KeptRepliesAreAccepted(log: seq<Exchange>, samples: seq<Sample>, expected: string, pairing: seq<nat>)
    requires log != [] && |samples| == |pairing| == |log|
    requires forall j :: 0 <= j < |log| ==> log[j].Chat? && Audited(log[j], expected)
    requires forall i, j :: 0 <= i < j < |log| ==> log[i].request.content != log[j].request.content
    requires forall i :: 0 <= i < |pairing| ==> pairing[i] < |log| && samples[i] == Kept(log[pairing[i]])
    requires forall i, j :: 0 <= i < j < |pairing| ==> pairing[i] != pairing[j]
    ensures Accepts(log, samples, expected)
  {
    assert Bijection(pairing, log, samples);
  }

  type Replies = map<string, Reply>

  /** The replies still unread are those of the exchanges no sample has taken. */
  ghost predicate RepliesHold(replies: Replies, log: seq<Exchange>, taken: set<nat>)
    requires forall i :: 0 <= i < |log| ==> log[i].Chat?
  {
    && (forall i: nat :: i < |log| && i !in taken ==>
          log[i].request.content in replies && replies[log[i].request.content] == ReplyOf(log[i]))
    && (forall p :: p in replies ==> exists i: nat :: i < |log| && i !in taken && log[i].request.content == p)
  }

  method ReadLog(log: seq<Exchange>, expected: string) returns (ok: bool, replies: Replies, fingerprints: set<string>)
    ensures ok <==> AllOk(log, expected) && PromptsDistinct(log)
    ensures ok ==> RepliesHold(replies, log, {}) && fingerprints == (if log == [] then {} else {expected})
  {
    replies, fingerprints := map[], {};
    for n := 0 to |log|
      invariant AllOk(log[..n], expected) && PromptsDistinct(log[..n])
      invariant RepliesHold(replies, log[..n], {})
      invariant fingerprints == (if n == 0 then {} else {expected})
    {
      var x := log[n];
      if !ExchangeOk(x, expected) {
        return false, replies, fingerprints;
      }
      ReplyAdded(replies, log[..n], x);
      assert log[..n + 1] == log[..n] + [x];
      if x.request.content in replies {
        assert !PromptsDistinct(log[..n + 1]);
        return false, replies, fingerprints;
      }
      replies := replies[x.request.content := ReplyOf(x)];
      fingerprints := fingerprints + {x.response.fingerprint};
    }
    assert log[..|log|] == log;
    ok := true;
  }

  lemma ReplyAdded(replies: Replies, log: seq<Exchange>, x: Exchange)
    requires (forall i :: 0 <= i < |log| ==> log[i].Chat?) && x.Chat? && PromptsDistinct(log)
    requires RepliesHold(replies, log, {})
    ensures x.request.content !in replies ==>
      PromptsDistinct(log + [x]) && RepliesHold(replies[x.request.content := ReplyOf(x)], log + [x], {})
    ensures x.request.content in replies ==> !PromptsDistinct(log + [x])
  {
    var more, after := log + [x], replies[x.request.content := ReplyOf(x)];
    if x.request.content in replies {
      var i: nat :| i < |log| && log[i].request.content == x.request.content;
      assert more[i].request.content == more[|log|].request.content;
    } else {
      forall p | p in after
        ensures exists i: nat :: i < |more| && more[i].request.content == p
      {
        if p in replies {
          var i: nat :| i < |log| && log[i].request.content == p;
          assert more[i].request.content == p;
        } else {
          assert more[|log|].request.content == p;
        }
      }
    }
  }

  /** Prompts identify exchanges, so a pairing is forced: it must send each sample to the exchange with its
      prompt. */
  lemma PairingIsForced(log: seq<Exchange>, samples: seq<Sample>, pairing: seq<nat>, i: nat, j: nat)
    requires (forall k :: 0 <= k < |log| ==> log[k].Chat?) && PromptsDistinct(log)
    requires Bijection(pairing, log, samples) && i < |samples| && j < |log|
    requires log[j].request.content == samples[i].prompt
    ensures pairing[i] == j
  {
  }

  /** What the pass over the samples has established when it has read n of them. */
  ghost predicate PassHolds(log: seq<Exchange>, samples: seq<Sample>, n: nat, pairing: seq<nat>, taken: set<nat>) {
    && |pairing| == n <= |samples|
    && (forall i :: 0 <= i < n ==> pairing[i] < |log| && pairing[i] in taken && Answers(log[pairing[i]], samples[i]))
    && (forall i, j :: 0 <= i < j < n ==> pairing[i] != pairing[j])
    && (forall k :: k in taken ==> k in pairing)
    && |taken| == n && taken <= Indexes(|log|)
  }

  /** Accepts exactly when samples and exchanges pair off one to one, texts equal; and then counts every
      exchange, and every truncated one. */
  method ValidateGenerationHttp(log: seq<Exchange>, samples: seq<Sample>, expected: string)
    returns (r: Result<(string, Outcome), string>)
    ensures r.Ok? <==> Accepts(log, samples, expected)
    ensures r.Ok? ==>
      && AllOk(log, expected)
      && r.value == (expected, Outcome(|log|, Truncated(FinishesOf(log))))
      && r.value.1.truncated == |set i: nat | i < |log| && log[i].response.finish == "length"|
  {
    var ok, replies, fingerprints := ReadLog(log, expected);
    if !ok {
      return Err("Invalid or duplicated chat evidence");
    }
    ghost var pairing: seq<nat> := [];
    ghost var taken: set<nat> := {};
    var finishes, truncated := 0, 0;
    for n := 0 to |samples|
      invariant finishes == n
      invariant PassHolds(log, samples, n, pairing, taken)
      invariant RepliesHold(replies, log, taken)
      invariant truncated == |CutShort(log, taken)|
    {
      var taking, reply := TakeReply(replies, samples[n], log, samples, n, pairing, taken);
      if !taking {
        return Err("Missing or different generation evidence for a selected prompt");
      }
      ghost var index := IndexOf(log, taken, samples[n].prompt);
      RepliesPop(replies, log, taken, index, samples[n].prompt);
      CutShortGrows(log, taken, index);
      PassStep(log, samples, n, pairing, taken, index);
      replies := replies - {samples[n].prompt};
      pairing, taken := pairing + [index], taken + {index};
      finishes := finishes + 1;
      truncated := truncated + (if reply.finish == "length" then 1 else 0);
    }
    if replies.Keys != {} || |fingerprints| != 1 {
      LeftOver(log, samples, replies, pairing, taken);
      return Err("Missing/mismatched generation coverage");
    }
    AllTaken(log, samples, replies, pairing, taken);
    TruncatedAre(log);
    r := Ok((expected, Outcome(finishes, truncated)));
  }

  lemma PassStep(log: seq<Exchange>, samples: seq<Sample>, n: nat, pairing: seq<nat>, taken: set<nat>, index: nat)
    requires n < |samples| && PassHolds(log, samples, n, pairing, taken)
    requires index < |log| && index !in taken && Answers(log[index], samples[n])
    ensures PassHolds(log, samples, n + 1, pairing + [index], taken + {index})
  {
    IndexesAre(|log|);
  }

  ghost predicate Unread(log: seq<Exchange>, taken: set<nat>, prompt: string, i: nat) {
    i < |log| && i !in taken && log[i].Chat? && log[i].request.content == prompt
  }

  ghost function IndexOf(log: seq<Exchange>, taken: set<nat>, prompt: string): (i: nat)
    requires exists i: nat :: Unread(log, taken, prompt, i)
    ensures Unread(log, taken, prompt, i)
  {
    var i: nat :| Unread(log, taken, prompt, i);
    i
  }

  /** One sample: its prompt must have an unread reply, and it must have kept exactly that text. */
  method TakeReply(replies: Replies, s: Sample, ghost log: seq<Exchange>, ghost samples: seq<Sample>, ghost n: nat,
                   ghost pairing: seq<nat>, ghost taken: set<nat>)
    returns (ok: bool, reply: Reply)
    requires (forall k :: 0 <= k < |log| ==> log[k].Chat?) && PromptsDistinct(log)
    requires n < |samples| && s == samples[n]
    requires PassHolds(log, samples, n, pairing, taken) && RepliesHold(replies, log, taken)
    ensures !ok ==> !exists full :: Bijection(full, log, samples)
    ensures ok ==>
      && (exists i: nat :: Unread(log, taken, s.prompt, i))
      && var i := IndexOf(log, taken, s.prompt);
         reply == ReplyOf(log[i]) && Answers(log[i], s)
  {
    if s.prompt !in replies {
      NoPairing(log, samples, pairing, taken, n);
      return false, Reply("", "");
    }
    reply := replies[s.prompt];
    ghost var index: nat :| index < |log| && index !in taken && log[index].request.content == s.prompt;
    assert Unread(log, taken, s.prompt, index);
    if s.resps != [[reply.text]] || s.filtered != [reply.text] {
      WrongReply(log, samples, index, n);
      return false, reply;
    }
    ok := true;
  }

  /** In any pairing, the exchange of the next sample has not been read yet. */
  lemma NextIsUnread(log: seq<Exchange>, samples: seq<Sample>, pairing: seq<nat>, taken: set<nat>, n: nat,
                     full: seq<nat>)
    requires (forall k :: 0 <= k < |log| ==> log[k].Chat?) && PromptsDistinct(log)
    requires n < |samples| && PassHolds(log, samples, n, pairing, taken) && Bijection(full, log, samples)
    ensures full[n] < |log| && full[n] !in taken && Answers(log[full[n]], samples[n])
  {
    forall i | 0 <= i < n ensures full[n] != pairing[i] {
      PairingIsForced(log, samples, full, i, pairing[i]);
    }
    assert full[n] !in pairing;
  }

  lemma NoPairing(log: seq<Exchange>, samples: seq<Sample>, pairing: seq<nat>, taken: set<nat>, n: nat)
    requires (forall k :: 0 <= k < |log| ==> log[k].Chat?) && PromptsDistinct(log)
    requires n < |samples| && PassHolds(log, samples, n, pairing, taken)
    requires forall i: nat :: i < |log| && i !in taken ==> log[i].request.content != samples[n].prompt
    ensures !exists full :: Bijection(full, log, samples)
  {
    forall full ensures !Bijection(full, log, samples) {
      if Bijection(full, log, samples) {
        NextIsUnread(log, samples, pairing, taken, n, full);
      }
    }
  }

  lemma WrongReply(log: seq<Exchange>, samples: seq<Sample>, index: nat, n: nat)
    requires (forall k :: 0 <= k < |log| ==> log[k].Chat?) && PromptsDistinct(log)
    requires n < |samples| && index < |log| && log[index].request.content == samples[n].prompt
    requires !Answers(log[index], samples[n])
    ensures !exists full :: Bijection(full, log, samples)
  {
    forall full ensures !Bijection(full, log, samples) {
      if Bijection(full, log, samples) {
        PairingIsForced(log, samples, full, n, index);
      }
    }
  }

  lemma RepliesPop(replies: Replies, log: seq<Exchange>, taken: set<nat>, index: nat, prompt: string)
    requires (forall k :: 0 <= k < |log| ==> log[k].Chat?) && PromptsDistinct(log)
    requires RepliesHold(replies, log, taken)
    requires index < |log| && index !in taken && log[index].request.content == prompt
    ensures RepliesHold(replies - {prompt}, log, taken + {index})
  {
  }

  lemma CutShortGrows(log: seq<Exchange>, taken: set<nat>, index: nat)
    requires (forall k :: 0 <= k < |log| ==> log[k].Chat?) && index < |log| && index !in taken
    ensures |CutShort(log, taken + {index})|
         == |CutShort(log, taken)| + (if log[index].response.finish == "length" then 1 else 0)
  {
    assert CutShort(log, taken + {index})
        == CutShort(log, taken) + (if log[index].response.finish == "length" then {index} else {});
  }

  lemma LeftOver(log: seq<Exchange>, samples: seq<Sample>, replies: Replies, pairing: seq<nat>, taken: set<nat>)
    requires (forall k :: 0 <= k < |log| ==> log[k].Chat?) && RepliesHold(replies, log, taken)
    requires PassHolds(log, samples, |samples|, pairing, taken)
    requires replies.Keys != {} || log == []
    ensures log == [] || |log| != |samples|
  {
    if log != [] && |log| == |samples| {
      IndexesAre(|log|);
      SameSizeSubset(taken, Indexes(|log|));
    }
  }

  lemma AllTaken(log: seq<Exchange>, samples: seq<Sample>, replies: Replies, pairing: seq<nat>, taken: set<nat>)
    requires (forall k :: 0 <= k < |log| ==> log[k].Chat?) && RepliesHold(replies, log, taken)
    requires PassHolds(log, samples, |samples|, pairing, taken) && replies.Keys == {}
    ensures Bijection(pairing, log, samples)
    ensures |CutShort(log, taken)| == Truncated(FinishesOf(log))
  {
    IndexesAre(|log|);
    forall i: nat | i < |log| ensures i in taken {
    }
    assert taken == Indexes(|log|);
    assert log[..|log|] == log;
    TruncatedCounts(log, |log|);
  }

  lemma SameSizeSubset(a: set<nat>, b: set<nat>)
    requires a <= b && |a| == |b|
    ensures a == b
  {
    assert b == a + (b - a);
  }
}
