/** Reconstruction of saved continuation scores from captured HTTP evidence, as pilot/quality_eval/records.py
    does it: tokenizer answers by text, one first-in-first-out queue of log-probabilities per scored position. */
module HttpCoverage {
  import opened Common
  import opened Text

  const CONTEXT: nat := 2048
  const SCORE_TOLERANCE := 0.000000001

  // ---------------------------------------------------------------- the log

  /** The position scored by one request: the prompt tokens and the token forced after them. */
  datatype Key = Key(prefix: seq<int>, token: int)

  /** wellTyped: the payload has exactly the audited keys, with the audited JSON types. */
  datatype ScoringRequest = ScoringRequest(
    wellTyped: bool, prompt: seq<int>, temperature: real, maxTokens: int, logprobs: int, idSlot: int,
    bias: seq<(int, int)>)

  /** A number that is not finite, or is no number, is None. */
  datatype ScoredToken = ScoredToken(id: int, logprob: Option<real>, top: seq<Option<real>>)

  datatype ScoringResponse = ScoringResponse(
    fingerprint: string, completionTokens: int, promptTokens: int, cachedTokens: int, content: seq<ScoredToken>)

  datatype Exchange =
    | Failed
    | Completion(request: ScoringRequest, response: ScoringResponse)
    | Tokenize(requestOk: bool, tokensAreIntegers: bool, content: string, tokens: seq<int>)
    | UnknownUrl

  predicate RequestOk(r: ScoringRequest) {
    && r.wellTyped
    && r.prompt != [] && (forall t :: t in r.prompt ==> t >= 0) && |r.prompt| + 1 <= CONTEXT
    && r.temperature == 0.0 && r.maxTokens == 1 && r.logprobs == 2 && r.idSlot == 0
    && |r.bias| == 1 && r.bias[0].0 >= 0 && r.bias[0].1 == 100
  }

  predicate ResponseOk(q: ScoringRequest, r: ScoringResponse, expected: string)
    requires RequestOk(q)
  {
    && r.fingerprint == expected
    && |r.content| == 1
    && r.completionTokens == 1 && r.promptTokens == |q.prompt| && r.cachedTokens == 0
    && r.content[0].id == q.bias[0].0
    && r.content[0].logprob.Some? && r.content[0].logprob.value <= 0.0
    && r.content[0].top != [] && forall t :: t in r.content[0].top ==> t.Some?
  }

  predicate ExchangeOk(x: Exchange, expected: string) {
    match x
    case Failed => false
    case UnknownUrl => false
    case Completion(q, r) => RequestOk(q) && ResponseOk(q, r, expected)
    case Tokenize(requestOk, integers, _, tokens) =>
      requestOk && integers && tokens != [] && forall t :: t in tokens ==> t >= 0
  }

  /** One scoring exchange: where it is in the log, the position it scored, and its log-probability. */
  datatype Scoring = Scoring(at: nat, key: Key, logprob: real)

  function ScoringOf(x: Exchange, expected: string, at: nat): Scoring
    requires x.Completion? && ExchangeOk(x, expected)
  {
    Scoring(at, Key(x.request.prompt, x.request.bias[0].0), x.response.content[0].logprob.value)
  }

  type Table = map<string, seq<int>>

  function TableOf(log: seq<Exchange>): Table {
    if log == [] then map[]
    else
      var last := log[|log| - 1];
      var before := TableOf(log[..|log| - 1]);
      if last.Tokenize? then before[last.content := last.tokens] else before
  }

  /** Every exchange is valid, and no text was tokenized in two ways. */
  predicate LogOk(log: seq<Exchange>, expected: string) {
    log == []
    || var last, before := log[|log| - 1], log[..|log| - 1];
       && LogOk(before, expected)
       && ExchangeOk(last, expected)
       && (last.Tokenize? ==>
             last.content !in TableOf(before) || TableOf(before)[last.content] == last.tokens)
  }

  function ScoringsOf(log: seq<Exchange>, expected: string): seq<Scoring>
    requires LogOk(log, expected)
  {
    if log == [] then []
    else
      var last, before := log[|log| - 1], log[..|log| - 1];
      var scorings := ScoringsOf(before, expected);
      if last.Completion? then scorings + [ScoringOf(last, expected, |log| - 1)] else scorings
  }

  /** The log holds this answer of the tokenizer. */
  predicate Answered(log: seq<Exchange>, text: string, tokens: seq<int>) {
    exists x :: x in log && x.Tokenize? && x.content == text && x.tokens == tokens
  }

  /** In an accepted log the table holds exactly the tokenizer answers, whatever their order. */
  lemma {:induction false} TableIsTheAnswers(log: seq<Exchange>, expected: string, text: string, tokens: seq<int>)
    requires LogOk(log, expected)
    ensures Answered(log, text, tokens) <==> text in TableOf(log) && TableOf(log)[text] == tokens
  {
    if log != [] {
      var before, last := log[..|log| - 1], log[|log| - 1];
      assert log == before + [last];
      TableIsTheAnswers(before, expected, text, tokens);
      assert Answered(log, text, tokens)
        <==> Answered(before, text, tokens) || (last.Tokenize? && last.content == text && last.tokens == tokens);
      if last.Tokenize? && last.content == text && text in TableOf(before) {
        TableIsTheAnswers(before, expected, text, last.tokens);
      }
    }
  }

  /** No text was tokenized in two ways. */
  ghost predicate Consistent(log: seq<Exchange>) {
    forall text, a, b :: Answered(log, text, a) && Answered(log, text, b) ==> a == b
  }

  lemma {:induction false} ConsistentIsOk(log: seq<Exchange>, expected: string)
    requires forall x :: x in log ==> ExchangeOk(x, expected)
    requires Consistent(log)
    ensures LogOk(log, expected)
  {
    if log != [] {
      var before, last := log[..|log| - 1], log[|log| - 1];
      assert log == before + [last];
      forall text, tokens | Answered(before, text, tokens) ensures Answered(log, text, tokens) {
      }
      ConsistentIsOk(before, expected);
      if last.Tokenize? && last.content in TableOf(before) {
        TableIsTheAnswers(before, expected, last.content, TableOf(before)[last.content]);
        assert Answered(log, last.content, last.tokens);
      }
    }
  }

  lemma {:induction false} OkLogsHoldValidExchanges(log: seq<Exchange>, expected: string)
    requires LogOk(log, expected)
    ensures forall x :: x in log ==> ExchangeOk(x, expected)
  {
    if log != [] {
      OkLogsHoldValidExchanges(log[..|log| - 1], expected);
      assert log == log[..|log| - 1] + [log[|log| - 1]];
    }
  }

  /** What the first pass accepts, exchange by exchange. */
  lemma LogOkIff(log: seq<Exchange>, expected: string)
    ensures LogOk(log, expected) <==> (forall x :: x in log ==> ExchangeOk(x, expected)) && Consistent(log)
  {
    if LogOk(log, expected) {
      OkLogsHoldValidExchanges(log, expected);
      forall text, a, b | Answered(log, text, a) && Answered(log, text, b) ensures a == b {
        TableIsTheAnswers(log, expected, text, a);
        TableIsTheAnswers(log, expected, text, b);
      }
    } else if (forall x :: x in log ==> ExchangeOk(x, expected)) && Consistent(log) {
      ConsistentIsOk(log, expected);
    }
  }

  // ---------------------------------------------------------------- saved scores

  /** One saved continuation; repeats and filtered are its raw and filtered scores. */
  datatype Continuation = Continuation(context: string, text: string, repeats: seq<real>, filtered: real)

  /** The positions a continuation must have been scored at; None when the tokenizer evidence for it is
      missing or ambiguous. */
  function Demand(table: Table, c: Continuation): Option<seq<Key>> {
    var wholeText, prefixText := c.context + c.text, RStrip(c.context);
    if wholeText !in table || prefixText !in table then None
    else
      var whole, prefix := table[wholeText], table[prefixText];
      if !(prefix <= whole) then None
      else Some(Positions(whole, |prefix|))
  }

  function Positions(whole: seq<int>, start: nat): (keys: seq<Key>)
    requires start <= |whole|
  {
    seq(|whole| - start, i requires 0 <= i < |whole| - start => Key(whole[..start + i], whole[start + i]))
  }

  function Sum(values: seq<real>): real {
    if values == [] then 0.0 else Sum(values[..|values| - 1]) + values[|values| - 1]
  }

  predicate IsClose(a: real, b: real) { -SCORE_TOLERANCE <= a - b <= SCORE_TOLERANCE }

  predicate ScoresMatch(c: Continuation, total: real) {
    |c.repeats| == 1 && IsClose(total, c.repeats[0]) && IsClose(total, c.filtered)
  }

  // ---------------------------------------------------------------- what is read, in order

  datatype Taken = Taken(scoring: Scoring, rest: seq<Scoring>)

  /** The first unread exchange that scored this position. */
  function Take(unread: seq<Scoring>, k: Key): Option<Taken> {
    if unread == [] then None
    else if unread[0].key == k then Some(Taken(unread[0], unread[1..]))
    else
      var later := Take(unread[1..], k);
      if later.None? then None else Some(Taken(later.value.scoring, [unread[0]] + later.value.rest))
  }

  datatype TakenAll = TakenAll(part: seq<Scoring>, rest: seq<Scoring>)

  function TakeAll(unread: seq<Scoring>, keys: seq<Key>): Option<TakenAll> {
    if keys == [] then Some(TakenAll([], unread))
    else
      var before := TakeAll(unread, keys[..|keys| - 1]);
      if before.None? then None
      else
        var t := Take(before.value.rest, keys[|keys| - 1]);
        if t.None? then None else Some(TakenAll(before.value.part + [t.value.scoring], t.value.rest))
  }

  function KeysOf(s: seq<Scoring>): seq<Key> {
    seq(|s|, i requires 0 <= i < |s| => s[i].key)
  }

  function LogprobsOf(s: seq<Scoring>): seq<real> {
    seq(|s|, i requires 0 <= i < |s| => s[i].logprob)
  }

  /** What one continuation leaves unread; None if it cannot be reconstructed. */
  function ReadContinuation(unread: seq<Scoring>, c: Continuation, table: Table): Option<seq<Scoring>> {
    var demand := Demand(table, c);
    if demand.None? then None
    else
      var all := TakeAll(unread, demand.value);
      if all.None? || !ScoresMatch(c, Sum(LogprobsOf(all.value.part))) then None else Some(all.value.rest)
  }

  function Reconcile(unread: seq<Scoring>, saved: seq<Continuation>, table: Table): Option<seq<Scoring>>
    decreases |saved|
  {
    if saved == [] then Some(unread)
    else
      var rest := ReadContinuation(unread, saved[0], table);
      if rest.None? then None else Reconcile(rest.value, saved[1..], table)
  }

  function Flatten(samples: seq<seq<Continuation>>): seq<Continuation> {
    if samples == [] then [] else samples[0] + Flatten(samples[1..])
  }

  predicate Accepts(log: seq<Exchange>, samples: seq<seq<Continuation>>, expected: string) {
    && LogOk(log, expected)
    && ScoringsOf(log, expected) != []
    && Reconcile(ScoringsOf(log, expected), Flatten(samples), TableOf(log)) == Some([])
  }

  // ---------------------------------------------------------------- queues

  /** The unread exchanges of one position, in order. */
  function QueueOf(s: seq<Scoring>, k: Key): seq<Scoring> {
    if s == [] then [] else (if s[0].key == k then [s[0]] else []) + QueueOf(s[1..], k)
  }

  type Queues = map<Key, seq<real>>

  function QueueIn(queues: Queues, k: Key): seq<real> { if k in queues then queues[k] else [] }

  ghost predicate QueuesHold(queues: Queues, s: seq<Scoring>) {
    forall k :: QueueIn(queues, k) == LogprobsOf(QueueOf(s, k))
  }

  /** Taking pops the queue of the position and leaves every other queue alone. */
  lemma {:induction false} TakeIsPop(s: seq<Scoring>, k: Key, other: Key)
    ensures Take(s, k).Some? <==> QueueOf(s, k) != []
    ensures Take(s, k).Some? ==>
      var t := Take(s, k).value;
      && t.scoring.key == k
      && QueueOf(s, k) == [t.scoring] + QueueOf(t.rest, k)
      && (other != k ==> QueueOf(t.rest, other) == QueueOf(s, other))
  {
    if s != [] && s[0].key != k {
      TakeIsPop(s[1..], k, other);
      if Take(s[1..], k).Some? {
        var later := Take(s[1..], k).value.rest;
        assert ([s[0]] + later)[1..] == later;
      }
    }
  }

  lemma {:induction false} TakeRemovesOne(s: seq<Scoring>, k: Key)
    requires Take(s, k).Some?
    ensures
      var t := Take(s, k).value;
      t.scoring.key == k && multiset(s) == multiset(t.rest) + multiset{t.scoring}
  {
    assert s == [s[0]] + s[1..];
    if s[0].key != k {
      TakeRemovesOne(s[1..], k);
      var later := Take(s[1..], k).value.rest;
      assert multiset([s[0]] + later) == multiset{s[0]} + multiset(later);
    }
  }

  lemma {:induction false} QueueAppend(s: seq<Scoring>, x: Scoring, k: Key)
    ensures QueueOf(s + [x], k) == QueueOf(s, k) + (if x.key == k then [x] else [])
  {
    if s == [] {
      assert s + [x] == [x];
    } else {
      assert (s + [x])[1..] == s[1..] + [x];
      QueueAppend(s[1..], x, k);
    }
  }

  lemma LogprobsAppend(s: seq<Scoring>, x: Scoring)
    ensures LogprobsOf(s + [x]) == LogprobsOf(s) + [x.logprob]
    ensures KeysOf(s + [x]) == KeysOf(s) + [x.key]
  {
  }

  lemma LogprobsPop(x: Scoring, s: seq<Scoring>)
    ensures LogprobsOf([x] + s) != [] && LogprobsOf([x] + s)[0] == x.logprob
    ensures LogprobsOf([x] + s)[1..] == LogprobsOf(s)
  {
  }

  lemma PushHolds(queues: Queues, s: seq<Scoring>, x: Scoring)
    requires QueuesHold(queues, s)
    ensures QueuesHold(queues[x.key := QueueIn(queues, x.key) + [x.logprob]], s + [x])
  {
    var pushed := queues[x.key := QueueIn(queues, x.key) + [x.logprob]];
    forall k ensures LogprobsOf(QueueOf(s + [x], k)) == QueueIn(pushed, k) {
      QueueAppend(s, x, k);
      LogprobsAppend(QueueOf(s, k), x);
      assert QueueIn(queues, k) == LogprobsOf(QueueOf(s, k));
    }
  }

  lemma PopHolds(queues: Queues, s: seq<Scoring>, k: Key)
    requires QueuesHold(queues, s)
    ensures Take(s, k).Some? <==> QueueIn(queues, k) != []
    ensures QueueIn(queues, k) != [] ==>
      && k in queues && queues[k][0] == Take(s, k).value.scoring.logprob
      && QueuesHold(queues[k := queues[k][1..]], Take(s, k).value.rest)
  {
    TakeIsPop(s, k, k);
    assert QueueIn(queues, k) == LogprobsOf(QueueOf(s, k));
    if QueueIn(queues, k) != [] {
      var t := Take(s, k).value;
      LogprobsPop(t.scoring, QueueOf(t.rest, k));
      var popped := queues[k := queues[k][1..]];
      forall other ensures LogprobsOf(QueueOf(t.rest, other)) == QueueIn(popped, other) {
        TakeIsPop(s, k, other);
        assert QueueIn(queues, other) == LogprobsOf(QueueOf(s, other));
      }
    }
  }

  lemma {:induction false} TakeAllPrefix(unread: seq<Scoring>, keys: seq<Key>, n: nat)
    requires n <= |keys| && TakeAll(unread, keys[..n]).None?
    ensures TakeAll(unread, keys).None?
    decreases |keys|
  {
    if n < |keys| {
      assert keys[..|keys| - 1][..n] == keys[..n];
      TakeAllPrefix(unread, keys[..|keys| - 1], n);
    } else {
      assert keys[..n] == keys;
    }
  }

  // ---------------------------------------------------------------- the code

  lemma OneMoreExchange(log: seq<Exchange>, expected: string, i: nat)
    requires i < |log| && LogOk(log[..i], expected)
    ensures LogOk(log[..i + 1], expected) <==>
      && ExchangeOk(log[i], expected)
      && (log[i].Tokenize? ==> log[i].content !in TableOf(log[..i]) || TableOf(log[..i])[log[i].content] == log[i].tokens)
    ensures TableOf(log[..i + 1])
      == if log[i].Tokenize? then TableOf(log[..i])[log[i].content := log[i].tokens] else TableOf(log[..i])
    ensures LogOk(log[..i + 1], expected) ==>
      ScoringsOf(log[..i + 1], expected)
      == if log[i].Completion? then ScoringsOf(log[..i], expected) + [ScoringOf(log[i], expected, i)]
         else ScoringsOf(log[..i], expected)
  {
    assert log[..i + 1][..i] == log[..i];
  }

  /** What the first pass holds once these exchanges are read. */
  ghost predicate HasRead(log: seq<Exchange>, expected: string, table: Table, queues: Queues, prints: set<string>) {
    && LogOk(log, expected)
    && table == TableOf(log)
    && QueuesHold(queues, ScoringsOf(log, expected))
    && prints == if ScoringsOf(log, expected) == [] then {} else {expected}
  }

  lemma ReadsCompletion(log: seq<Exchange>, expected: string, i: nat, table: Table, queues: Queues, prints: set<string>)
    requires i < |log| && HasRead(log[..i], expected, table, queues, prints)
    requires ExchangeOk(log[i], expected) && log[i].Completion?
    ensures
      var x := ScoringOf(log[i], expected, i);
      HasRead(log[..i + 1], expected, table, queues[x.key := QueueIn(queues, x.key) + [x.logprob]],
              prints + {log[i].response.fingerprint})
  {
    OneMoreExchange(log, expected, i);
    PushHolds(queues, ScoringsOf(log[..i], expected), ScoringOf(log[i], expected, i));
  }

  lemma ReadsAnswer(log: seq<Exchange>, expected: string, i: nat, table: Table, queues: Queues, prints: set<string>)
    requires i < |log| && HasRead(log[..i], expected, table, queues, prints)
    requires ExchangeOk(log[i], expected) && log[i].Tokenize?
    requires log[i].content !in table || table[log[i].content] == log[i].tokens
    ensures HasRead(log[..i + 1], expected, table[log[i].content := log[i].tokens], queues, prints)
  {
    OneMoreExchange(log, expected, i);
  }

  /** First pass: checks every exchange, fills the tokenizer table and the queues. */
  method ReadLog(log: seq<Exchange>, expected: string)
    returns (ok: bool, table: Table, queues: Queues, fingerprints: set<string>)
    ensures ok <==> LogOk(log, expected)
    ensures ok ==>
      && table == TableOf(log)
      && QueuesHold(queues, ScoringsOf(log, expected))
      && fingerprints == (if ScoringsOf(log, expected) == [] then {} else {expected})
  {
    table, queues, fingerprints := map[], map[], {};
    for i := 0 to |log|
      invariant HasRead(log[..i], expected, table, queues, fingerprints)
    {
      var x := log[i];
      OneMoreExchange(log, expected, i);
      if !ExchangeOk(x, expected) {
        LogOkPrefix(log, expected, i + 1);
        return false, table, queues, fingerprints;
      }
      if x.Completion? {
        var scoring := ScoringOf(x, expected, i);
        ReadsCompletion(log, expected, i, table, queues, fingerprints);
        queues := queues[scoring.key := QueueIn(queues, scoring.key) + [scoring.logprob]];
        fingerprints := fingerprints + {x.response.fingerprint};
      } else {
        if x.content in table && table[x.content] != x.tokens {
          LogOkPrefix(log, expected, i + 1);
          return false, table, queues, fingerprints;
        }
        ReadsAnswer(log, expected, i, table, queues, fingerprints);
        table := table[x.content := x.tokens];
      }
    }
    assert log[..|log|] == log;
    ok := true;
  }

  lemma {:induction false} LogOkPrefix(log: seq<Exchange>, expected: string, n: nat)
    requires n <= |log| && !LogOk(log[..n], expected)
    ensures !LogOk(log, expected)
    decreases |log|
  {
    if n < |log| {
      assert log[..|log| - 1][..n] == log[..n];
      LogOkPrefix(log[..|log| - 1], expected, n);
    } else {
      assert log[..n] == log;
    }
  }

  lemma TakeAllStep(unread: seq<Scoring>, keys: seq<Key>, n: nat)
    requires n < |keys| && TakeAll(unread, keys[..n]).Some?
    ensures
      var before := TakeAll(unread, keys[..n]).value;
      var t := Take(before.rest, keys[n]);
      TakeAll(unread, keys[..n + 1])
      == if t.None? then None else Some(TakenAll(before.part + [t.value.scoring], t.value.rest))
  {
    assert keys[..n + 1][..n] == keys[..n];
  }

  /** One more position: its queue is empty and nothing can be read, or its head is what is read next. */
  lemma ConsumeStep(unread: seq<Scoring>, keys: seq<Key>, n: nat, part: seq<Scoring>, rest: seq<Scoring>, queues: Queues)
    requires n < |keys| && TakeAll(unread, keys[..n]) == Some(TakenAll(part, rest)) && QueuesHold(queues, rest)
    ensures QueueIn(queues, keys[n]) == [] ==> TakeAll(unread, keys).None?
    ensures QueueIn(queues, keys[n]) != [] ==>
      var k := keys[n];
      && Take(rest, k).Some?
      && var t := Take(rest, k).value;
         && k in queues && queues[k][0] == t.scoring.logprob && QueuesHold(queues[k := queues[k][1..]], t.rest)
         && TakeAll(unread, keys[..n + 1]) == Some(TakenAll(part + [t.scoring], t.rest))
  {
    TakeAllStep(unread, keys, n);
    PopHolds(queues, rest, keys[n]);
    if QueueIn(queues, keys[n]) == [] {
      TakeAllPrefix(unread, keys, n + 1);
    }
  }

  lemma SumAppend(part: seq<Scoring>, x: Scoring)
    ensures Sum(LogprobsOf(part + [x])) == Sum(LogprobsOf(part)) + x.logprob
  {
    LogprobsAppend(part, x);
    assert (LogprobsOf(part) + [x.logprob])[..|part|] == LogprobsOf(part);
  }

  /** Pops one log-probability for each position from start on, adding them up. */
  method ConsumePositions(whole: seq<int>, start: nat, queues: Queues, ghost keys: seq<Key>, ghost unread: seq<Scoring>)
    returns (ok: bool, total: real, queues': Queues, ghost unread': seq<Scoring>)
    requires start <= |whole| && QueuesHold(queues, unread)
    requires keys == Positions(whole, start)
    ensures ok <==> TakeAll(unread, keys).Some?
    ensures ok ==>
      var all := TakeAll(unread, keys).value;
      total == Sum(LogprobsOf(all.part)) && unread' == all.rest && QueuesHold(queues', unread')
  {
    queues', unread', total := queues, unread, 0.0;
    ghost var part: seq<Scoring> := [];
    ghost var n := 0;
    for position := start to |whole|
      invariant n == position - start <= |keys|
      invariant TakeAll(unread, keys[..n]) == Some(TakenAll(part, unread'))
      invariant total == Sum(LogprobsOf(part))
      invariant QueuesHold(queues', unread')
    {
      var key := Key(whole[..position], whole[position]);
      assert keys[n] == key;
      ConsumeStep(unread, keys, n, part, unread', queues');
      if QueueIn(queues', key) == [] {
        return false, total, queues', unread';
      }
      total := total + queues'[key][0];
      ghost var t := Take(unread', key).value;
      SumAppend(part, t.scoring);
      part, unread' := part + [t.scoring], t.rest;
      queues' := queues'[key := queues'[key][1..]];
      n := n + 1;
    }
    assert keys[..n] == keys;
    ok := true;
  }

  /** Reconstructs one continuation and compares it with its saved scores. */
  method CheckContinuation(c: Continuation, table: Table, queues: Queues, ghost unread: seq<Scoring>)
    returns (ok: bool, queues': Queues, ghost unread': seq<Scoring>)
    requires QueuesHold(queues, unread)
    ensures ok <==> ReadContinuation(unread, c, table).Some?
    ensures ok ==> ReadContinuation(unread, c, table) == Some(unread') && QueuesHold(queues', unread')
  {
    queues', unread' := queues, unread;
    var wholeText, prefixText := c.context + c.text, RStrip(c.context);
    if wholeText !in table || prefixText !in table {
      return false, queues', unread';
    }
    var whole, prefix := table[wholeText], table[prefixText];
    if |whole| < |prefix| || whole[..|prefix|] != prefix {
      return false, queues', unread';
    }
    var total: real;
    ok, total, queues', unread' := ConsumePositions(whole, |prefix|, queues, Positions(whole, |prefix|), unread);
    if ok && (|c.repeats| != 1 || !IsClose(total, c.repeats[0]) || !IsClose(total, c.filtered)) {
      ok := false;
    }
  }

  /** The continuations of one sample, one after the other. */
  method CheckSample(sample: seq<Continuation>, table: Table, queues: Queues, ghost unread: seq<Scoring>)
    returns (ok: bool, queues': Queues, ghost unread': seq<Scoring>)
    requires QueuesHold(queues, unread)
    ensures ok <==> Reconcile(unread, sample, table).Some?
    ensures ok ==> Reconcile(unread, sample, table) == Some(unread') && QueuesHold(queues', unread')
  {
    ok, queues', unread' := true, queues, unread;
    for index := 0 to |sample|
      invariant QueuesHold(queues', unread')
      invariant Reconcile(unread, sample, table) == Reconcile(unread', sample[index..], table)
    {
      assert sample[index..][1..] == sample[index + 1..];
      ok, queues', unread' := CheckContinuation(sample[index], table, queues', unread');
      if !ok {
        return;
      }
    }
    ok := true;
  }

  lemma {:induction false} ReconcileSplits(unread: seq<Scoring>, a: seq<Continuation>, b: seq<Continuation>,
                                           table: Table)
    ensures
      var first := Reconcile(unread, a, table);
      Reconcile(unread, a + b, table) == if first.None? then None else Reconcile(first.value, b, table)
    decreases |a|
  {
    if a == [] {
      assert a + b == b;
    } else {
      assert (a + b)[1..] == a[1..] + b;
      var rest := ReadContinuation(unread, a[0], table);
      if rest.Some? {
        ReconcileSplits(rest.value, a[1..], b, table);
      }
    }
  }

  /** Accepts exactly the logs and scores that reconcile; the answer is the one fingerprint. */
  method ValidateHttpCoverage(log: seq<Exchange>, samples: seq<seq<Continuation>>, expected: string)
    returns (r: Result<string, string>)
    ensures r.Ok? <==> Accepts(log, samples, expected)
    ensures r.Ok? ==> r.value == expected
  {
    var ok, table, queues, fingerprints := ReadLog(log, expected);
    if !ok {
      return Err("Invalid or conflicting HTTP evidence");
    }
    ghost var all := ScoringsOf(log, expected);
    ghost var unread := all;
    for i := 0 to |samples|
      invariant QueuesHold(queues, unread)
      invariant Reconcile(all, Flatten(samples), table) == Reconcile(unread, Flatten(samples[i..]), table)
    {
      ReconcileSplits(unread, samples[i], Flatten(samples[i + 1..]), table);
      ok, queues, unread := CheckSample(samples[i], table, queues, unread);
      if !ok {
        return Err("HTTP evidence does not reconstruct a saved continuation");
      }
    }
    LeftoverIsUnread(queues, unread);
    if |fingerprints| != 1 || exists k :: k in queues && queues[k] != [] {
      return Err("Missing/mismatched scoring coverage");
    }
    r := Ok(expected);
  }

  lemma LeftoverIsUnread(queues: Queues, unread: seq<Scoring>)
    requires QueuesHold(queues, unread)
    ensures (exists k :: k in queues && queues[k] != []) <==> unread != []
  {
    if unread != [] {
      var k := unread[0].key;
      assert QueueIn(queues, k) == LogprobsOf(QueueOf(unread, k)) && QueueOf(unread, k) != [];
    }
    if exists k :: k in queues && queues[k] != [] {
      var k :| k in queues && queues[k] != [];
      assert QueueIn(queues, k) == LogprobsOf(QueueOf(unread, k));
    }
  }

  // ---------------------------------------------------------------- soundness

  function Join(parts: seq<seq<Scoring>>): seq<Scoring> {
    if parts == [] then [] else parts[0] + Join(parts[1..])
  }

  /** Part i takes exactly the positions of continuation i, in order, and adds up to both saved scores. */
  ghost predicate Explains(parts: seq<seq<Scoring>>, saved: seq<Continuation>, table: Table) {
    && |parts| == |saved|
    && forall i :: 0 <= i < |parts| ==>
         Demand(table, saved[i]) == Some(KeysOf(parts[i])) && ScoresMatch(saved[i], Sum(LogprobsOf(parts[i])))
  }

  lemma OneMoreTaken(unread: seq<Scoring>, part: seq<Scoring>, left: seq<Scoring>, x: Scoring, rest: seq<Scoring>)
    requires multiset(unread) == multiset(part) + multiset(left) && multiset(left) == multiset(rest) + multiset{x}
    ensures multiset(unread) == multiset(part + [x]) + multiset(rest)
  {
  }

  lemma {:induction false} TakeAllIsAPart(unread: seq<Scoring>, keys: seq<Key>)
    requires TakeAll(unread, keys).Some?
    ensures
      var all := TakeAll(unread, keys).value;
      KeysOf(all.part) == keys && multiset(unread) == multiset(all.part) + multiset(all.rest)
    decreases |keys|
  {
    if keys == [] {
      assert multiset(unread) == multiset([]) + multiset(unread);
    } else {
      var n := |keys| - 1;
      var before := TakeAll(unread, keys[..n]).value;
      var t := Take(before.rest, keys[n]).value;
      TakeAllIsAPart(unread, keys[..n]);
      TakeRemovesOne(before.rest, keys[n]);
      OneMoreTaken(unread, before.part, before.rest, t.scoring, t.rest);
      LogprobsAppend(before.part, t.scoring);
      assert keys == keys[..n] + [keys[n]];
    }
  }

  /** The same exchanges for every position, in the same order; positions may interleave freely. */
  ghost predicate SameQueues(a: seq<Scoring>, b: seq<Scoring>) { forall k :: QueueOf(a, k) == QueueOf(b, k) }

  lemma {:induction false} QueueConcat(a: seq<Scoring>, b: seq<Scoring>, k: Key)
    ensures QueueOf(a + b, k) == QueueOf(a, k) + QueueOf(b, k)
  {
    if a == [] {
      assert a + b == b;
    } else {
      assert (a + b)[1..] == a[1..] + b;
      QueueConcat(a[1..], b, k);
    }
  }

  /** Reading a part takes it off the front of every queue. */
  lemma {:induction false} TakeAllQueues(unread: seq<Scoring>, keys: seq<Key>, k: Key)
    requires TakeAll(unread, keys).Some?
    ensures
      var all := TakeAll(unread, keys).value;
      QueueOf(unread, k) == QueueOf(all.part, k) + QueueOf(all.rest, k)
    decreases |keys|
  {
    if keys != [] {
      var n := |keys| - 1;
      var before := TakeAll(unread, keys[..n]).value;
      TakeAllQueues(unread, keys[..n], k);
      TakeIsPop(before.rest, keys[n], k);
      QueueAppend(before.part, Take(before.rest, keys[n]).value.scoring, k);
    }
  }

  /** Taking these out of what was unread leaves the rest: as multisets, and at the front of every queue. */
  ghost predicate TakenOut(unread: seq<Scoring>, taken: seq<Scoring>, rest: seq<Scoring>) {
    && multiset(unread) == multiset(taken) + multiset(rest)
    && forall k :: QueueOf(unread, k) == QueueOf(taken, k) + QueueOf(rest, k)
  }

  lemma TakenOutTwice(unread: seq<Scoring>, a: seq<Scoring>, left: seq<Scoring>, b: seq<Scoring>, rest: seq<Scoring>)
    requires TakenOut(unread, a, left) && TakenOut(left, b, rest)
    ensures TakenOut(unread, a + b, rest)
  {
    forall k ensures QueueOf(unread, k) == QueueOf(a + b, k) + QueueOf(rest, k) {
      QueueConcat(a, b, k);
      assert QueueOf(unread, k) == QueueOf(a, k) + QueueOf(left, k);
      assert QueueOf(left, k) == QueueOf(b, k) + QueueOf(rest, k);
    }
  }

  lemma ContinuationIsTakenOut(unread: seq<Scoring>, keys: seq<Key>)
    requires TakeAll(unread, keys).Some?
    ensures
      var all := TakeAll(unread, keys).value;
      KeysOf(all.part) == keys && TakenOut(unread, all.part, all.rest)
  {
    var all := TakeAll(unread, keys).value;
    TakeAllIsAPart(unread, keys);
    forall k ensures QueueOf(unread, k) == QueueOf(all.part, k) + QueueOf(all.rest, k) {
      TakeAllQueues(unread, keys, k);
    }
  }

  lemma {:induction false} ReconcileShares(unread: seq<Scoring>, saved: seq<Continuation>, table: Table)
    returns (parts: seq<seq<Scoring>>)
    requires Reconcile(unread, saved, table).Some?
    ensures Explains(parts, saved, table)
    ensures TakenOut(unread, Join(parts), Reconcile(unread, saved, table).value)
    decreases |saved|
  {
    if saved == [] {
      parts := [];
    } else {
      var demand := Demand(table, saved[0]).value;
      ContinuationIsTakenOut(unread, demand);
      var part, left := TakeAll(unread, demand).value.part, TakeAll(unread, demand).value.rest;
      var others := ReconcileShares(left, saved[1..], table);
      parts := [part] + others;
      assert Join(parts) == part + Join(others);
      TakenOutTwice(unread, part, left, Join(others), Reconcile(left, saved[1..], table).value);
    }
  }

  // ---------------------------------------------------------------- completeness

  lemma {:induction false} TakeAllInOrder(part: seq<Scoring>, rest: seq<Scoring>)
    ensures TakeAll(part + rest, KeysOf(part)) == Some(TakenAll(part, rest))
    decreases |part|
  {
    if part == [] {
      assert part + rest == rest;
    } else {
      var n := |part| - 1;
      TakeAllInOrder(part[..n], [part[n]] + rest);
      assert part[..n] + ([part[n]] + rest) == part + rest;
      assert KeysOf(part)[..n] == KeysOf(part[..n]) && KeysOf(part)[n] == part[n].key;
      assert ([part[n]] + rest)[1..] == rest && part[..n] + [part[n]] == part;
    }
  }

  lemma {:induction false} ReconcileInOrder(parts: seq<seq<Scoring>>, saved: seq<Continuation>, table: Table)
    requires Explains(parts, saved, table)
    ensures Reconcile(Join(parts), saved, table) == Some([])
  {
    if parts != [] {
      TakeAllInOrder(parts[0], Join(parts[1..]));
      forall i | 0 <= i < |parts| - 1
        ensures Demand(table, saved[1..][i]) == Some(KeysOf(parts[1..][i]))
             && ScoresMatch(saved[1..][i], Sum(LogprobsOf(parts[1..][i])))
      {
        assert parts[1..][i] == parts[i + 1] && saved[1..][i] == saved[i + 1];
      }
      ReconcileInOrder(parts[1..], saved[1..], table);
    }
  }

  /** What is taken, and what is left for every position, depends on the queues alone. */
  lemma TakeSameAt(a: seq<Scoring>, b: seq<Scoring>, k: Key, other: Key)
    requires SameQueues(a, b) && Take(a, k).Some? && Take(b, k).Some?
    ensures Take(a, k).value.scoring == Take(b, k).value.scoring
    ensures QueueOf(Take(a, k).value.rest, other) == QueueOf(Take(b, k).value.rest, other)
  {
    var ta, tb := Take(a, k).value, Take(b, k).value;
    TakeIsPop(a, k, other);
    TakeIsPop(b, k, other);
    assert QueueOf(a, k) == QueueOf(b, k) && QueueOf(a, other) == QueueOf(b, other);
    SameHead(ta.scoring, QueueOf(ta.rest, k), tb.scoring, QueueOf(tb.rest, k));
  }

  lemma SameHead(x: Scoring, s: seq<Scoring>, y: Scoring, t: seq<Scoring>)
    requires [x] + s == [y] + t
    ensures x == y && s == t
  {
    assert ([x] + s)[0] == x && ([y] + t)[0] == y;
    assert s == ([x] + s)[1..] && t == ([y] + t)[1..];
  }

  lemma TakeSame(a: seq<Scoring>, b: seq<Scoring>, k: Key)
    requires SameQueues(a, b)
    ensures Take(a, k).Some? <==> Take(b, k).Some?
    ensures Take(a, k).Some? ==>
      Take(a, k).value.scoring == Take(b, k).value.scoring && SameQueues(Take(a, k).value.rest, Take(b, k).value.rest)
  {
    TakeIsPop(a, k, k);
    TakeIsPop(b, k, k);
    assert QueueOf(a, k) == QueueOf(b, k);
    if Take(a, k).Some? {
      TakeSameAt(a, b, k, k);
      forall other ensures QueueOf(Take(a, k).value.rest, other) == QueueOf(Take(b, k).value.rest, other) {
        TakeSameAt(a, b, k, other);
      }
    }
  }

  lemma {:induction false} TakeAllSame(a: seq<Scoring>, b: seq<Scoring>, keys: seq<Key>)
    requires SameQueues(a, b)
    ensures TakeAll(a, keys).Some? <==> TakeAll(b, keys).Some?
    ensures TakeAll(a, keys).Some? ==>
      && TakeAll(a, keys).value.part == TakeAll(b, keys).value.part
      && SameQueues(TakeAll(a, keys).value.rest, TakeAll(b, keys).value.rest)
    decreases |keys|
  {
    if keys != [] {
      var n := |keys| - 1;
      TakeAllSame(a, b, keys[..n]);
      if TakeAll(a, keys[..n]).Some? {
        TakeSame(TakeAll(a, keys[..n]).value.rest, TakeAll(b, keys[..n]).value.rest, keys[n]);
      }
    }
  }

  lemma {:induction false} ReconcileSame(a: seq<Scoring>, b: seq<Scoring>, saved: seq<Continuation>, table: Table)
    requires SameQueues(a, b)
    ensures Reconcile(a, saved, table).Some? <==> Reconcile(b, saved, table).Some?
    ensures Reconcile(a, saved, table).Some? ==>
      SameQueues(Reconcile(a, saved, table).value, Reconcile(b, saved, table).value)
    decreases |saved|
  {
    if saved != [] {
      var demand := Demand(table, saved[0]);
      if demand.Some? {
        TakeAllSame(a, b, demand.value);
        var restA, restB := ReadContinuation(a, saved[0], table), ReadContinuation(b, saved[0], table);
        if restA.Some? {
          ReconcileSame(restA.value, restB.value, saved[1..], table);
        }
      }
    }
  }

  lemma NoQueuesLeft(s: seq<Scoring>)
    requires SameQueues([], s)
    ensures s == []
  {
    if s != [] {
      assert QueueOf(s, s[0].key) == QueueOf([], s[0].key);
    }
  }

  lemma ExplainedReconciles(parts: seq<seq<Scoring>>, scorings: seq<Scoring>, saved: seq<Continuation>, table: Table)
    requires Explains(parts, saved, table) && SameQueues(Join(parts), scorings)
    ensures Reconcile(scorings, saved, table) == Some([])
  {
    ReconcileInOrder(parts, saved, table);
    ReconcileSame(Join(parts), scorings, saved, table);
    NoQueuesLeft(Reconcile(scorings, saved, table).value);
  }

  // ---------------------------------------------------------------- in terms of the log alone

  /** This exchange of the log asked for one token after the prefix, at zero temperature, with this token
      forced; the server answered with that token, and the log-probability is the one it gave to it. */
  ghost predicate Genuine(log: seq<Exchange>, expected: string, s: Scoring) {
    && s.at < |log| && log[s.at].Completion?
    && var q, r := log[s.at].request, log[s.at].response;
       && q == ScoringRequest(true, s.key.prefix, 0.0, 1, 2, 0, [(s.key.token, 100)])
       && 0 < |s.key.prefix| < CONTEXT
       && r.fingerprint == expected
       && r.completionTokens == 1 && r.promptTokens == |s.key.prefix| && r.cachedTokens == 0
       && |r.content| == 1 && r.content[0].id == s.key.token
       && r.content[0].logprob == Some(s.logprob) && s.logprob <= 0.0
  }

  /** Each scoring exchange is used once and none is left over, and the exchanges of one position are used in
      capture order. */
  ghost predicate UsedOnce(log: seq<Exchange>, expected: string, used: seq<Scoring>) {
    && (forall i :: 0 <= i < |used| ==> Genuine(log, expected, used[i]))
    && (forall i, j :: 0 <= i < j < |used| ==> used[i].at != used[j].at)
    && (forall k :: 0 <= k < |log| && log[k].Completion? ==> exists i :: 0 <= i < |used| && used[i].at == k)
    && (forall i, j :: 0 <= i < j < |used| && used[i].key == used[j].key ==> used[i].at < used[j].at)
  }

  /** The part scores every token the tokenizer put after the context, each given all tokens before it, and adds
      up to both saved scores. */
  ghost predicate Rebuilds(log: seq<Exchange>, c: Continuation, part: seq<Scoring>) {
    exists whole, prefix :: RebuildsFrom(log, c, part, whole, prefix)
  }

  ghost predicate RebuildsFrom(log: seq<Exchange>, c: Continuation, part: seq<Scoring>, whole: seq<int>, prefix: seq<int>) {
    && Answered(log, c.context + c.text, whole) && Answered(log, RStrip(c.context), prefix)
    && prefix <= whole && |part| == |whole| - |prefix|
    && (forall j :: 0 <= j < |part| ==>
          part[j].key.prefix == whole[..|prefix| + j] && part[j].key.token == whole[|prefix| + j])
    && |c.repeats| == 1
    && -SCORE_TOLERANCE <= Sum(LogprobsOf(part)) - c.repeats[0] <= SCORE_TOLERANCE
    && -SCORE_TOLERANCE <= Sum(LogprobsOf(part)) - c.filtered <= SCORE_TOLERANCE
  }

  lemma PositionsAre(part: seq<Scoring>, whole: seq<int>, start: nat)
    requires start <= |whole|
    ensures KeysOf(part) == Positions(whole, start)
       <==> |part| == |whole| - start
            && forall j :: 0 <= j < |part| ==>
                 part[j].key.prefix == whole[..start + j] && part[j].key.token == whole[start + j]
  {
    if KeysOf(part) == Positions(whole, start) {
      forall j | 0 <= j < |part|
        ensures part[j].key.prefix == whole[..start + j] && part[j].key.token == whole[start + j]
      {
        assert KeysOf(part)[j] == Positions(whole, start)[j];
      }
    }
  }

  lemma RebuildsDemand(log: seq<Exchange>, expected: string, c: Continuation, part: seq<Scoring>, whole: seq<int>,
                       prefix: seq<int>)
    requires LogOk(log, expected) && RebuildsFrom(log, c, part, whole, prefix)
    ensures Demand(TableOf(log), c) == Some(KeysOf(part)) && ScoresMatch(c, Sum(LogprobsOf(part)))
  {
    TableIsTheAnswers(log, expected, c.context + c.text, whole);
    TableIsTheAnswers(log, expected, RStrip(c.context), prefix);
    PositionsAre(part, whole, |prefix|);
  }

  lemma DemandRebuilds(log: seq<Exchange>, expected: string, c: Continuation, part: seq<Scoring>)
    requires LogOk(log, expected)
    requires Demand(TableOf(log), c) == Some(KeysOf(part)) && ScoresMatch(c, Sum(LogprobsOf(part)))
    ensures Rebuilds(log, c, part)
  {
    var whole, prefix := TableOf(log)[c.context + c.text], TableOf(log)[RStrip(c.context)];
    TableIsTheAnswers(log, expected, c.context + c.text, whole);
    TableIsTheAnswers(log, expected, RStrip(c.context), prefix);
    PositionsAre(part, whole, |prefix|);
    assert RebuildsFrom(log, c, part, whole, prefix);
  }

  lemma RebuildsIff(log: seq<Exchange>, expected: string, c: Continuation, part: seq<Scoring>)
    requires LogOk(log, expected)
    ensures Rebuilds(log, c, part)
       <==> Demand(TableOf(log), c) == Some(KeysOf(part)) && ScoresMatch(c, Sum(LogprobsOf(part)))
  {
    if Rebuilds(log, c, part) {
      var whole, prefix :| RebuildsFrom(log, c, part, whole, prefix);
      RebuildsDemand(log, expected, c, part, whole, prefix);
    }
    if Demand(TableOf(log), c) == Some(KeysOf(part)) && ScoresMatch(c, Sum(LogprobsOf(part))) {
      DemandRebuilds(log, expected, c, part);
    }
  }

  lemma ExplainsIff(log: seq<Exchange>, expected: string, saved: seq<Continuation>, parts: seq<seq<Scoring>>)
    requires LogOk(log, expected)
    ensures Explains(parts, saved, TableOf(log))
       <==> |parts| == |saved| && forall i :: 0 <= i < |saved| ==> Rebuilds(log, saved[i], parts[i])
  {
    forall i | 0 <= i < |saved| && |parts| == |saved|
      ensures Rebuilds(log, saved[i], parts[i])
         <==> Demand(TableOf(log), saved[i]) == Some(KeysOf(parts[i])) && ScoresMatch(saved[i], Sum(LogprobsOf(parts[i])))
    {
      RebuildsIff(log, expected, saved[i], parts[i]);
    }
  }

  lemma {:induction false} ScoringsAreGenuine(log: seq<Exchange>, expected: string, i: nat)
    requires LogOk(log, expected) && i < |ScoringsOf(log, expected)|
    ensures Genuine(log, expected, ScoringsOf(log, expected)[i])
    decreases |log|
  {
    var before := log[..|log| - 1];
    if i < |ScoringsOf(before, expected)| {
      ScoringsAreGenuine(before, expected, i);
    }
  }

  lemma {:induction false} ScoringsCover(log: seq<Exchange>, expected: string, k: nat) returns (i: nat)
    requires LogOk(log, expected) && k < |log| && log[k].Completion?
    ensures i < |ScoringsOf(log, expected)| && ScoringsOf(log, expected)[i].at == k
    decreases |log|
  {
    var before := log[..|log| - 1];
    if k < |before| {
      i := ScoringsCover(before, expected, k);
    } else {
      i := |ScoringsOf(before, expected)|;
    }
  }

  ghost predicate Ascending(s: seq<Scoring>) { forall i, j :: 0 <= i < j < |s| ==> s[i].at < s[j].at }

  lemma {:induction false} ScoringsAscend(log: seq<Exchange>, expected: string)
    requires LogOk(log, expected)
    ensures Ascending(ScoringsOf(log, expected))
    ensures forall i :: 0 <= i < |ScoringsOf(log, expected)| ==> ScoringsOf(log, expected)[i].at < |log|
  {
    if log != [] {
      ScoringsAscend(log[..|log| - 1], expected);
    }
  }

  lemma ScoringsAreUsedOnce(log: seq<Exchange>, expected: string)
    requires LogOk(log, expected)
    ensures UsedOnce(log, expected, ScoringsOf(log, expected)) && Ascending(ScoringsOf(log, expected))
  {
    ScoringsAscend(log, expected);
    forall i | 0 <= i < |ScoringsOf(log, expected)| ensures Genuine(log, expected, ScoringsOf(log, expected)[i]) {
      ScoringsAreGenuine(log, expected, i);
    }
    forall k | 0 <= k < |log| && log[k].Completion?
      ensures exists i :: 0 <= i < |ScoringsOf(log, expected)| && ScoringsOf(log, expected)[i].at == k
    {
      var i := ScoringsCover(log, expected, k);
    }
  }

  /** What an exchange says is determined by where it is. */
  lemma GenuineIsUnique(log: seq<Exchange>, expected: string, s: Scoring, t: Scoring)
    requires Genuine(log, expected, s) && Genuine(log, expected, t) && s.at == t.at
    ensures s == t
  {
    assert log[s.at].request.bias[0].0 == s.key.token == t.key.token;
  }

  lemma SameMembers(log: seq<Exchange>, expected: string, a: seq<Scoring>, b: seq<Scoring>, s: Scoring)
    requires UsedOnce(log, expected, a) && UsedOnce(log, expected, b) && s in a
    ensures s in b
  {
    var i :| 0 <= i < |a| && a[i] == s;
    assert Genuine(log, expected, a[i]);
    assert 0 <= s.at < |log| && log[s.at].Completion?;
    var j :| 0 <= j < |b| && b[j].at == s.at;
    GenuineIsUnique(log, expected, s, b[j]);
  }

  lemma RestMembers(a: seq<Scoring>, s: Scoring)
    requires a != [] && Ascending(a)
    ensures s in a[1..] <==> s in a && s != a[0]
  {
    if s in a[1..] {
      var i :| 0 <= i < |a| - 1 && a[1..][i] == s;
      assert a[i + 1] == s;
    }
    if s in a && s != a[0] {
      var i :| 0 <= i < |a| && a[i] == s;
      assert a[1..][i - 1] == s;
    }
  }

  lemma SomeMember(a: seq<Scoring>, b: seq<Scoring>)
    requires a != [] && forall s :: s in a ==> s in b
    ensures b != []
  {
    assert a[0] in b;
  }

  lemma SameFirst(a: seq<Scoring>, b: seq<Scoring>)
    requires a != [] && b != [] && Ascending(a) && Ascending(b) && forall s :: s in a <==> s in b
    ensures a[0] == b[0]
  {
    assert a[0] in b && b[0] in a;
    var j :| 0 <= j < |b| && b[j] == a[0];
    var i :| 0 <= i < |a| && a[i] == b[0];
  }

  lemma {:induction false} AscendingSame(a: seq<Scoring>, b: seq<Scoring>)
    requires Ascending(a) && Ascending(b) && forall s :: s in a <==> s in b
    ensures a == b
  {
    if a == [] {
      if b != [] {
        SomeMember(b, a);
      }
    } else {
      SomeMember(a, b);
      SameFirst(a, b);
      forall s ensures s in a[1..] <==> s in b[1..] {
        RestMembers(a, s);
        RestMembers(b, s);
      }
      AscendingSame(a[1..], b[1..]);
      assert a == [a[0]] + a[1..] && b == [b[0]] + b[1..];
    }
  }

  lemma {:induction false} QueueMembers(s: seq<Scoring>, k: Key)
    ensures forall x :: x in QueueOf(s, k) <==> x in s && x.key == k
  {
    if s != [] {
      QueueMembers(s[1..], k);
      assert s == [s[0]] + s[1..];
    }
  }

  lemma {:induction false} QueueAscends(s: seq<Scoring>, k: Key)
    requires forall i, j :: 0 <= i < j < |s| && s[i].key == s[j].key ==> s[i].at < s[j].at
    ensures Ascending(QueueOf(s, k))
  {
    if s != [] {
      QueueAscends(s[1..], k);
      QueueMembers(s[1..], k);
      var rest := QueueOf(s[1..], k);
      forall j | 0 <= j < |rest| && s[0].key == k ensures s[0].at < rest[j].at {
        assert rest[j] in rest;
        var m :| 0 <= m < |s[1..]| && s[1..][m] == rest[j];
        assert s[m + 1] == rest[j] && s[0].key == s[m + 1].key;
      }
    }
  }

  /** Using every exchange once, those of one position in order, is having the queues of the log. */
  lemma UsedOnceIsSameQueues(log: seq<Exchange>, expected: string, used: seq<Scoring>)
    requires LogOk(log, expected) && UsedOnce(log, expected, used)
    ensures SameQueues(used, ScoringsOf(log, expected))
  {
    var all := ScoringsOf(log, expected);
    ScoringsAreUsedOnce(log, expected);
    forall k ensures QueueOf(used, k) == QueueOf(all, k) {
      QueueAscends(used, k);
      QueueAscends(all, k);
      QueueMembers(used, k);
      QueueMembers(all, k);
      forall s ensures s in QueueOf(used, k) <==> s in QueueOf(all, k) {
        if s in used {
          SameMembers(log, expected, used, all, s);
        }
        if s in all {
          SameMembers(log, expected, all, used, s);
        }
      }
      AscendingSame(QueueOf(used, k), QueueOf(all, k));
    }
  }

  lemma AscendingTail(x: Scoring, rest: seq<Scoring>)
    requires Ascending([x] + rest)
    ensures Ascending(rest) && forall t :: t in rest ==> x.at < t.at
  {
    var whole := [x] + rest;
    forall i, j | 0 <= i < j < |rest| ensures rest[i].at < rest[j].at {
      assert whole[i + 1] == rest[i] && whole[j + 1] == rest[j];
    }
    forall t | t in rest ensures x.at < t.at {
      var m :| 0 <= m < |rest| && rest[m] == t;
      assert whole[0] == x && whole[m + 1] == t;
    }
  }

  lemma QueueTailAscends(s: seq<Scoring>, k: Key)
    requires s != [] && Ascending(QueueOf(s, k))
    ensures Ascending(QueueOf(s[1..], k))
    ensures s[0].key == k ==> forall t :: t in QueueOf(s[1..], k) ==> s[0].at < t.at
  {
    if s[0].key == k {
      AscendingTail(s[0], QueueOf(s[1..], k));
    } else {
      assert QueueOf(s, k) == QueueOf(s[1..], k);
    }
  }

  /** In a list whose queues ascend, later exchanges of a position come later in the log. */
  lemma {:induction false} QueueOfIndex(s: seq<Scoring>, i: nat, j: nat)
    requires i < j < |s| && s[i].key == s[j].key && Ascending(QueueOf(s, s[i].key))
    ensures s[i].at < s[j].at
  {
    QueueTailAscends(s, s[i].key);
    assert s[1..][j - 1] == s[j];
    if i == 0 {
      QueueMembers(s[1..], s[0].key);
      assert s[j] in s[1..];
    } else {
      assert s[1..][i - 1] == s[i];
      QueueOfIndex(s[1..], i - 1, j - 1);
    }
  }

  lemma SameMultisetMembers(a: seq<Scoring>, b: seq<Scoring>)
    requires multiset(a) == multiset(b)
    ensures forall s :: s in a <==> s in b
  {
    forall s ensures s in a <==> s in b {
      assert s in a <==> s in multiset(a);
      assert s in b <==> s in multiset(b);
    }
  }

  lemma InCaptureOrder(used: seq<Scoring>, all: seq<Scoring>, i: nat, j: nat)
    requires Ascending(all) && SameQueues(used, all) && i < j < |used| && used[i].key == used[j].key
    ensures used[i].at < used[j].at
  {
    QueueAscends(all, used[i].key);
    assert QueueOf(used, used[i].key) == QueueOf(all, used[i].key);
    QueueOfIndex(used, i, j);
  }

  lemma NoneUsedTwice(log: seq<Exchange>, expected: string, used: seq<Scoring>, all: seq<Scoring>, i: nat, j: nat)
    requires Ascending(all) && SameQueues(used, all) && i < j < |used|
    requires Genuine(log, expected, used[i]) && Genuine(log, expected, used[j])
    ensures used[i].at != used[j].at && (used[i].key == used[j].key ==> used[i].at < used[j].at)
  {
    if used[i].at == used[j].at {
      GenuineIsUnique(log, expected, used[i], used[j]);
    }
    if used[i].key == used[j].key {
      InCaptureOrder(used, all, i, j);
    }
  }

  lemma TakenCovers(log: seq<Exchange>, expected: string, used: seq<Scoring>, all: seq<Scoring>)
    requires UsedOnce(log, expected, all) && multiset(used) == multiset(all)
    ensures forall i :: 0 <= i < |used| ==> Genuine(log, expected, used[i])
    ensures forall k :: 0 <= k < |log| && log[k].Completion? ==> exists i :: 0 <= i < |used| && used[i].at == k
  {
    SameMultisetMembers(used, all);
    forall i | 0 <= i < |used| ensures Genuine(log, expected, used[i]) {
      assert used[i] in used;
      var m :| 0 <= m < |all| && all[m] == used[i];
    }
    forall k | 0 <= k < |log| && log[k].Completion? ensures exists i :: 0 <= i < |used| && used[i].at == k {
      var m :| 0 <= m < |all| && all[m].at == k;
      assert all[m] in all;
      assert all[m] in used;
    }
  }

  /** Conversely, taking the log's exchanges out of their queues uses each of them once. */
  lemma TakenIsUsedOnce(log: seq<Exchange>, expected: string, used: seq<Scoring>)
    requires LogOk(log, expected) && multiset(used) == multiset(ScoringsOf(log, expected))
    requires SameQueues(used, ScoringsOf(log, expected))
    ensures UsedOnce(log, expected, used)
  {
    var all := ScoringsOf(log, expected);
    ScoringsAreUsedOnce(log, expected);
    TakenCovers(log, expected, used, all);
    forall i, j | 0 <= i < j < |used|
      ensures used[i].at != used[j].at && (used[i].key == used[j].key ==> used[i].at < used[j].at)
    {
      NoneUsedTwice(log, expected, used, all, i, j);
    }
  }

  lemma NothingLeft(unread: seq<Scoring>, used: seq<Scoring>)
    requires TakenOut(unread, used, [])
    ensures multiset(used) == multiset(unread) && SameQueues(used, unread)
  {
    forall k ensures QueueOf(used, k) == QueueOf(unread, k) {
      assert QueueOf(unread, k) == QueueOf(used, k) + QueueOf([], k);
    }
  }

  /** The evidence of a log shared out among the saved continuations. */
  ghost predicate SharedOut(parts: seq<seq<Scoring>>, log: seq<Exchange>, samples: seq<seq<Continuation>>,
                            expected: string) {
    && UsedOnce(log, expected, Join(parts))
    && |parts| == |Flatten(samples)|
    && forall i :: 0 <= i < |parts| ==> Rebuilds(log, Flatten(samples)[i], parts[i])
  }

  /** Acceptance means one-to-one: every scoring exchange of the log is used for exactly one token of one saved
      continuation, and every saved score is the sum of the forced tokens' own log-probabilities. */
  lemma AcceptanceIsOneToOne(log: seq<Exchange>, samples: seq<seq<Continuation>>, expected: string)
    returns (parts: seq<seq<Scoring>>)
    requires Accepts(log, samples, expected)
    ensures SharedOut(parts, log, samples, expected)
  {
    parts := ReconcileShares(ScoringsOf(log, expected), Flatten(samples), TableOf(log));
    NothingLeft(ScoringsOf(log, expected), Join(parts));
    TakenIsUsedOnce(log, expected, Join(parts));
    ExplainsIff(log, expected, Flatten(samples), parts);
  }

  lemma SharedOutIsAccepted(parts: seq<seq<Scoring>>, log: seq<Exchange>, samples: seq<seq<Continuation>>,
                            expected: string)
    requires LogOk(log, expected) && SharedOut(parts, log, samples, expected)
    ensures Accepts(log, samples, expected) <==> exists k :: 0 <= k < |log| && log[k].Completion?
  {
    ExplainsIff(log, expected, Flatten(samples), parts);
    UsedOnceIsSameQueues(log, expected, Join(parts));
    ExplainedReconciles(parts, ScoringsOf(log, expected), Flatten(samples), TableOf(log));
    ScoredSomething(log, expected);
  }

  lemma ScoredSomething(log: seq<Exchange>, expected: string)
    requires LogOk(log, expected)
    ensures ScoringsOf(log, expected) != [] <==> exists k :: 0 <= k < |log| && log[k].Completion?
  {
    ScoringsAreUsedOnce(log, expected);
    if ScoringsOf(log, expected) != [] {
      assert Genuine(log, expected, ScoringsOf(log, expected)[0]);
      assert log[ScoringsOf(log, expected)[0].at].Completion?;
    }
  }

  /** The main result: a log is accepted if and only if every exchange is valid, no text was tokenized in two
      ways, something was scored, and the scoring exchanges can be shared out among the continuations. */
  lemma AcceptedIff(log: seq<Exchange>, samples: seq<seq<Continuation>>, expected: string)
    ensures
      Accepts(log, samples, expected)
      <==> && (forall x :: x in log ==> ExchangeOk(x, expected)) && Consistent(log)
           && (exists k :: 0 <= k < |log| && log[k].Completion?)
           && (exists parts :: SharedOut(parts, log, samples, expected))
  {
    LogOkIff(log, expected);
    if Accepts(log, samples, expected) {
      var parts := AcceptanceIsOneToOne(log, samples, expected);
      ScoredSomething(log, expected);
    }
    if LogOk(log, expected) {
      forall parts | SharedOut(parts, log, samples, expected)
        ensures Accepts(log, samples, expected) <==> exists k :: 0 <= k < |log| && log[k].Completion?
      {
        SharedOutIsAccepted(parts, log, samples, expected);
      }
    }
  }

  // ---------------------------------------------------------------- the evaluator's side

  /** The evaluator moves trailing whitespace of the context to the continuation before tokenizing. */
  function Migrate(context: string, text: string): (string, string) {
    var spaces := |context| - |RStrip(context)|;
    if spaces > 0 then (context[..|context| - spaces], context[|context| - spaces..] + text) else (context, text)
  }

  lemma Regrouped(context: string, n: nat, text: string)
    requires n <= |context|
    ensures context[..n] + (context[n..] + text) == context + text
  {
  }

  /** The move changes neither the whole text nor the prefix the validator looks up. */
  lemma MigrationIsTransparent(context: string, text: string)
    ensures
      var (context', text') := Migrate(context, text);
      context' + text' == context + text && context' == RStrip(context) && RStrip(context') == context'
  {
    RStripIsPrefix(context);
    RStripIsIdempotent(context);
    Regrouped(context, |RStrip(context)|, text);
  }

  /** What the evaluator checks of a continuation before scoring anything. */
  predicate PreflightOk(whole: seq<int>, prefix: seq<int>) {
    prefix != [] && |whole| <= CONTEXT && prefix <= whole
  }

  function RequestFor(k: Key): ScoringRequest {
    ScoringRequest(true, k.prefix, 0.0, 1, 2, 0, [(k.token, 100)])
  }

  /** Every request of a continuation that passed the evaluator's preflight passes the validator's own
      check of the request, context budget included. */
  lemma PreflightImpliesRequestsOk(whole: seq<int>, prefix: seq<int>, i: nat)
    requires PreflightOk(whole, prefix) && forall t :: t in whole ==> t >= 0
    requires i < |Positions(whole, |prefix|)|
    ensures RequestOk(RequestFor(Positions(whole, |prefix|)[i]))
  {
    var key := Positions(whole, |prefix|)[i];
    assert forall t :: t in key.prefix ==> t in whole;
    assert key.token in whole;
  }

  // ---------------------------------------------------------------- an honest run, end to end

  /** One tokenizer answered every question, and every scoring exchange is valid. */
  ghost predicate HonestLog(log: seq<Exchange>, expected: string, tok: string -> seq<int>) {
    forall x :: x in log ==> ExchangeOk(x, expected) && (x.Tokenize? ==> x.tokens == tok(x.content))
  }

  /** The evaluator tokenized what it was about to score and scored each position of each continuation; the
      saved scores are the sums of the answers. */
  ghost predicate HonestScores(log: seq<Exchange>, saved: seq<Continuation>, tok: string -> seq<int>,
                               parts: seq<seq<Scoring>>) {
    && |parts| == |saved|
    && forall i :: 0 <= i < |saved| ==>
         var (context, text) := Migrate(saved[i].context, saved[i].text);
         && Answered(log, context + text, tok(context + text)) && Answered(log, context, tok(context))
         && PreflightOk(tok(context + text), tok(context))
         && |parts[i]| == |tok(context + text)| - |tok(context)|
         && (forall j :: 0 <= j < |parts[i]| ==>
               && parts[i][j].key.prefix == tok(context + text)[..|tok(context)| + j]
               && parts[i][j].key.token == tok(context + text)[|tok(context)| + j])
         && ScoresMatch(saved[i], Sum(LogprobsOf(parts[i])))
  }

  lemma HonestLogIsOk(log: seq<Exchange>, expected: string, tok: string -> seq<int>)
    requires HonestLog(log, expected, tok)
    ensures LogOk(log, expected)
  {
    LogOkIff(log, expected);
  }

  lemma HonestScoresRebuild(log: seq<Exchange>, saved: seq<Continuation>, tok: string -> seq<int>,
                            parts: seq<seq<Scoring>>, i: nat)
    requires HonestScores(log, saved, tok, parts) && i < |saved|
    ensures Rebuilds(log, saved[i], parts[i])
  {
    var (context, text) := Migrate(saved[i].context, saved[i].text);
    MigrationIsTransparent(saved[i].context, saved[i].text);
    assert RebuildsFrom(log, saved[i], parts[i], tok(context + text), tok(context));
  }

  /** Any honest run is accepted as soon as it scored at least one position: tokenizer answers and scoring
      exchanges may interleave in any way, and only repeats of one position must come in sample order. */
  lemma HonestRunIsAccepted(log: seq<Exchange>, samples: seq<seq<Continuation>>, expected: string,
                            tok: string -> seq<int>, parts: seq<seq<Scoring>>)
    requires HonestLog(log, expected, tok) && HonestScores(log, Flatten(samples), tok, parts)
    requires UsedOnce(log, expected, Join(parts))
    ensures Accepts(log, samples, expected) <==> exists k :: 0 <= k < |log| && log[k].Completion?
  {
    HonestLogIsOk(log, expected, tok);
    forall i | 0 <= i < |parts| ensures Rebuilds(log, Flatten(samples)[i], parts[i]) {
      HonestScoresRebuild(log, Flatten(samples), tok, parts, i);
    }
    SharedOutIsAccepted(parts, log, samples, expected);
  }
}
