/** Task tags a re-quantization inherits from its declared base, looked up by a bounded pool of workers:
    src/jaull/discovery/lineage.py. */
module Lineage {
  import opened Common
  import opened Digests
  import opened Sorting
  import opened Text

  // ---------------------------------------------------------------- sorted name lists

  /** Adds a name to a sorted list unless it is there. */
  function Add(name: string, names: seq<string>): seq<string> {
    if name in names then names else Insert(StringBefore, name, names)
  }

  lemma AddKeepsSorted(name: string, names: seq<string>)
    requires Ordered(StringBefore, names)
    ensures Ordered(StringBefore, Add(name, names)) && forall x :: x in Add(name, names) <==> x == name || x in names
  {
    if name !in names {
      forall a, b, c | StringBefore(a, b) && StringBefore(b, c) ensures StringBefore(a, c) {
        StringTransitive(a, b, c);
      }
      forall i | 0 <= i < |names| ensures StringBefore(name, names[i]) || StringBefore(names[i], name) {
        StringTotal(name, names[i]);
      }
      InsertOrdered(StringBefore, name, names);
      InsertMembers(StringBefore, name, names);
    }
  }

  lemma SortedIsDistinct(names: seq<string>)
    requires Ordered(StringBefore, names)
    ensures Distinct(names)
  {
    forall i, j | 0 <= i < j < |names| ensures names[i] != names[j] {
      StringTotal(names[i], names[j]);
    }
  }

  // ---------------------------------------------------------------- the worker pool

  /** queue: not yet submitted; pending: being fetched; found: read; fetched: every submission so far. */
  datatype Pool = Pool(queue: seq<string>, pending: set<string>, found: map<string, seq<string>>, fetched: seq<string>)

  /** One wait: some lookups completed (none, on a timeout), and the search may have been cancelled. */
  datatype Tick = Tick(done: set<string>, cancelled: bool)

  function Members(names: seq<string>): set<string> { set n | n in names }

  /** Queued, pending and found bases partition the input; the pool is never over its size; each base was
      submitted once, in order; and what was found is what was read. */
  ghost predicate PoolOk(bases: seq<string>, workers: nat, read: string -> seq<string>, p: Pool) {
    && p.fetched + p.queue == bases
    && |p.pending| <= workers
    && Members(p.fetched) == p.pending + p.found.Keys
    && p.pending !! p.found.Keys
    && (forall b :: b in p.found ==> p.found[b] == read(b))
  }

  function Refill(p: Pool, workers: nat): Pool
    decreases |p.queue|
  {
    if |p.pending| >= workers || p.queue == [] then p
    else Refill(Submit(p), workers)
  }

  function ReadAll(bases: set<string>, read: string -> seq<string>): map<string, seq<string>> {
    map b | b in bases :: read(b)
  }

  function Complete(p: Pool, done: set<string>, read: string -> seq<string>): Pool {
    Pool(p.queue, p.pending - done, p.found + ReadAll(p.pending * done, read), p.fetched)
  }

  function Submit(p: Pool): Pool
    requires p.queue != []
  {
    Pool(p.queue[1..], p.pending + {p.queue[0]}, p.found, p.fetched + [p.queue[0]])
  }

  lemma NextIsNew(bases: seq<string>, p: Pool)
    requires Distinct(bases) && p.fetched + p.queue == bases && p.queue != []
    ensures p.queue[0] !in Members(p.fetched)
  {
    var n := |p.fetched|;
    forall i | 0 <= i < n ensures p.fetched[i] != p.queue[0] {
      assert bases[i] == p.fetched[i] && bases[n] == p.queue[0];
    }
  }

  lemma SubmitKeepsPoolOk(bases: seq<string>, workers: nat, read: string -> seq<string>, p: Pool)
    requires Distinct(bases) && PoolOk(bases, workers, read, p) && |p.pending| < workers && p.queue != []
    ensures PoolOk(bases, workers, read, Submit(p))
    ensures |Submit(p).pending| == |p.pending| + 1
  {
    NextIsNew(bases, p);
    NextIsFetched(p.fetched, p.queue);
    PartitionGrows(Members(p.fetched), p.pending, p.found.Keys, p.queue[0]);
  }

  lemma PartitionGrows(fetched: set<string>, pending: set<string>, found: set<string>, next: string)
    requires fetched == pending + found && pending !! found && next !in fetched
    ensures fetched + {next} == (pending + {next}) + found && pending + {next} !! found
    ensures |pending + {next}| == |pending| + 1
  {
  }

  lemma NextIsFetched(fetched: seq<string>, queue: seq<string>)
    requires queue != []
    ensures (fetched + [queue[0]]) + queue[1..] == fetched + queue
    ensures Members(fetched + [queue[0]]) == Members(fetched) + {queue[0]}
  {
  }

  /** Refilling keeps the invariant and never leaves a worker idle while something is queued. */
  lemma {:induction false} RefillKeepsPoolOk(bases: seq<string>, workers: nat, read: string -> seq<string>, p: Pool)
    requires Distinct(bases) && PoolOk(bases, workers, read, p)
    ensures
      var after := Refill(p, workers);
      && PoolOk(bases, workers, read, after)
      && (|after.pending| == workers || after.queue == [])
      && after.found == p.found && p.pending <= after.pending
    decreases |p.queue|
  {
    if |p.pending| < workers && p.queue != [] {
      SubmitKeepsPoolOk(bases, workers, read, p);
      RefillKeepsPoolOk(bases, workers, read, Submit(p));
    }
  }

  /** Moving the completed ones over changes neither the union nor the separation. */
  lemma MoveCompleted(pending: set<string>, found: set<string>, done: set<string>)
    requires pending !! found
    ensures (pending - done) + (found + pending * done) == pending + found
    ensures (pending - done) !! (found + pending * done)
    ensures |pending - done| == |pending| - |pending * done|
  {
  }

  lemma ReadAllExtends(found: map<string, seq<string>>, more: set<string>, read: string -> seq<string>)
    requires forall b :: b in found ==> found[b] == read(b)
    ensures (found + ReadAll(more, read)).Keys == found.Keys + more
    ensures forall b :: b in found + ReadAll(more, read) ==> (found + ReadAll(more, read))[b] == read(b)
  {
  }

  lemma CompleteKeepsPoolOk(bases: seq<string>, workers: nat, read: string -> seq<string>, p: Pool, done: set<string>)
    requires PoolOk(bases, workers, read, p)
    ensures PoolOk(bases, workers, read, Complete(p, done, read))
    ensures |Complete(p, done, read).pending| == |p.pending| - |p.pending * done|
  {
    MoveCompleted(p.pending, p.found.Keys, done);
    ReadAllExtends(p.found, p.pending * done, read);
  }

  datatype Outcome = Finished(found: map<string, seq<string>>, fetched: seq<string>) | Cancelled | StillWaiting(pool: Pool)

  /** The loop under a given schedule of completions and cancellations. */
  function Schedule(p: Pool, workers: nat, read: string -> seq<string>, ticks: seq<Tick>): Outcome
    decreases |ticks|
  {
    var full := Refill(p, workers);
    if full.pending == {} then Finished(full.found, full.fetched)
    else if ticks == [] then StillWaiting(full)
    else if ticks[0].cancelled then Cancelled
    else Schedule(Complete(full, ticks[0].done, read), workers, read, ticks[1..])
  }

  /** Under every schedule: a normal exit has submitted every base once, in order, and found all of them, and a
      run that is still waiting satisfies the invariant. */
  ghost predicate OutcomeOk(bases: seq<string>, workers: nat, read: string -> seq<string>, o: Outcome) {
    match o
    case Finished(found, fetched) =>
      fetched == bases && found.Keys == Members(bases) && forall b :: b in found ==> found[b] == read(b)
    case Cancelled => true
    case StillWaiting(pool) => PoolOk(bases, workers, read, pool) && pool.pending != {}
  }

  lemma {:induction false} EveryScheduleIsSafe(bases: seq<string>, workers: nat, read: string -> seq<string>,
                                               p: Pool, ticks: seq<Tick>)
    requires workers >= 1 && Distinct(bases) && PoolOk(bases, workers, read, p)
    ensures OutcomeOk(bases, workers, read, Schedule(p, workers, read, ticks))
    decreases |ticks|
  {
    RefillKeepsPoolOk(bases, workers, read, p);
    var full := Refill(p, workers);
    if full.pending == {} {
      assert full.queue == [];
      assert full.fetched == bases;
    } else if ticks != [] && !ticks[0].cancelled {
      CompleteKeepsPoolOk(bases, workers, read, full, ticks[0].done);
      EveryScheduleIsSafe(bases, workers, read, Complete(full, ticks[0].done, read), ticks[1..]);
    }
  }

  /** No cancellation, and every wait completes a pending lookup. */
  predicate Productive(p: Pool, workers: nat, read: string -> seq<string>, ticks: seq<Tick>)
    decreases |ticks|
  {
    var full := Refill(p, workers);
    ticks == [] || full.pending == {}
    || (!ticks[0].cancelled && full.pending * ticks[0].done != {}
        && Productive(Complete(full, ticks[0].done, read), workers, read, ticks[1..]))
  }

  /** As many productive waits as there are bases left are enough to finish. */
  lemma {:induction false} ProductiveScheduleFinishes(bases: seq<string>, workers: nat, read: string -> seq<string>,
                                                      p: Pool, ticks: seq<Tick>)
    requires workers >= 1 && Distinct(bases) && PoolOk(bases, workers, read, p)
    requires Productive(p, workers, read, ticks) && |ticks| >= |p.queue| + |p.pending|
    ensures Schedule(p, workers, read, ticks).Finished?
    decreases |ticks|
  {
    RefillKeepsPoolOk(bases, workers, read, p);
    RefillKeepsCount(bases, workers, read, p);
    var full := Refill(p, workers);
    if full.pending != {} {
      assert |full.pending| >= 1;
      CompleteKeepsPoolOk(bases, workers, read, full, ticks[0].done);
      assert |full.pending * ticks[0].done| >= 1;
      ProductiveScheduleFinishes(bases, workers, read, Complete(full, ticks[0].done, read), ticks[1..]);
    }
  }

  lemma {:induction false} RefillKeepsCount(bases: seq<string>, workers: nat, read: string -> seq<string>, p: Pool)
    requires Distinct(bases) && PoolOk(bases, workers, read, p)
    ensures |Refill(p, workers).queue| + |Refill(p, workers).pending| == |p.queue| + |p.pending|
    decreases |p.queue|
  {
    if |p.pending| < workers && p.queue != [] {
      SubmitKeepsPoolOk(bases, workers, read, p);
      RefillKeepsCount(bases, workers, read, Submit(p));
    }
  }

  /** The loop itself, on the queue, the pending set and the answers. */
  method FetchAll(bases: seq<string>, read: string -> seq<string>, workers: nat, cancelledAtOnce: bool,
                  ticks: seq<Tick>)
    returns (o: Outcome)
    requires workers >= 1 && Distinct(bases)
    ensures o == if cancelledAtOnce then Cancelled else Schedule(Pool(bases, {}, map[], []), workers, read, ticks)
    ensures OutcomeOk(bases, workers, read, o)
  {
    if cancelledAtOnce {
      return Cancelled;
    }
    var queue, pending, found, fetched := bases, {}, map[], [];
    ghost var start := Pool(bases, {}, map[], []);
    assert PoolOk(bases, workers, read, start) by {
      assert [] + bases == bases;
    }
    EveryScheduleIsSafe(bases, workers, read, start, ticks);
    for t := 0 to |ticks|
      invariant Schedule(Pool(queue, pending, found, fetched), workers, read, ticks[t..]) == Schedule(start, workers, read, ticks)
    {
      queue, pending, fetched := SubmitMore(queue, pending, found, fetched, workers);
      if pending == {} {
        return Finished(found, fetched);
      }
      assert ticks[t..][1..] == ticks[t + 1..];
      if ticks[t].cancelled {
        return Cancelled;
      }
      found := found + ReadAll(pending * ticks[t].done, read);
      pending := pending - ticks[t].done;
    }
    queue, pending, fetched := SubmitMore(queue, pending, found, fetched, workers);
    if pending == {} {
      return Finished(found, fetched);
    }
    o := StillWaiting(Pool(queue, pending, found, fetched));
  }

  method SubmitMore(queue: seq<string>, pending: set<string>, found: map<string, seq<string>>, fetched: seq<string>,
                    workers: nat)
    returns (queue': seq<string>, pending': set<string>, fetched': seq<string>)
    ensures Pool(queue', pending', found, fetched') == Refill(Pool(queue, pending, found, fetched), workers)
  {
    queue', pending', fetched' := queue, pending, fetched;
    while |pending'| < workers && queue' != []
      invariant Refill(Pool(queue', pending', found, fetched'), workers) == Refill(Pool(queue, pending, found, fetched), workers)
      decreases |queue'|
    {
      var base := queue'[0];
      queue' := queue'[1..];
      pending' := pending' + {base};
      fetched' := fetched' + [base];
    }
  }

  // ---------------------------------------------------------------- inheriting tags

  const BASE_PREFIX := "base_model:quantized:"

  datatype Candidate = Candidate(repoId: string, pipelineTag: Option<string>, tags: seq<string>)

  function FirstBase(tags: seq<string>): Option<string> {
    if tags == [] then None
    else if BASE_PREFIX <= Lower(tags[0]) then Some(tags[0][|BASE_PREFIX|..])
    else FirstBase(tags[1..])
  }

  function LookupBase(c: Candidate): Option<string> {
    if c.pipelineTag.Some? then None else FirstBase(c.tags)
  }

  /** The tag says what the repository re-quantizes, in whatever case its prefix is written. */
  predicate SaysBase(tag: string) { "base_model:quantized:" <= Lower(tag) }

  /** What the candidate may inherit from: it has no pipeline tag of its own, and the base is what follows the
      prefix in the first of its tags that has it. */
  ghost predicate Names(c: Candidate, base: string) {
    && c.pipelineTag.None?
    && exists i: nat :: NamesAt(c.tags, i, base)
  }

  ghost predicate NamesAt(tags: seq<string>, i: nat, base: string) {
    && i < |tags| && SaysBase(tags[i])
    && |tags[i]| >= 21 && tags[i][21..] == base
    && forall j :: 0 <= j < i ==> !SaysBase(tags[j])
  }

  lemma {:induction false} FirstBaseIs(tags: seq<string>, base: string)
    ensures FirstBase(tags) == Some(base) <==> exists i: nat :: NamesAt(tags, i, base)
  {
    if tags != [] {
      if SaysBase(tags[0]) {
        assert NamesAt(tags, 0, tags[0][21..]);
      } else {
        FirstBaseIs(tags[1..], base);
        if FirstBase(tags[1..]) == Some(base) {
          var i: nat :| NamesAt(tags[1..], i, base);
          LaterName(tags, i, base);
        }
        if exists i: nat :: NamesAt(tags, i, base) {
          var i: nat :| NamesAt(tags, i, base);
          assert i > 0;
          LaterName(tags, i - 1, base);
        }
      }
    }
  }

  lemma LaterName(tags: seq<string>, i: nat, base: string)
    requires tags != [] && !SaysBase(tags[0])
    ensures NamesAt(tags[1..], i, base) <==> NamesAt(tags, i + 1, base)
  {
    if NamesAt(tags[1..], i, base) {
      assert tags[i + 1] == tags[1..][i];
      forall j | 0 <= j < i + 1 ensures !SaysBase(tags[j]) {
        assert j > 0 ==> tags[1..][j - 1] == tags[j];
      }
    }
    if NamesAt(tags, i + 1, base) {
      forall j | 0 <= j < i ensures !SaysBase(tags[1..][j]) {
        assert tags[1..][j] == tags[j + 1];
      }
    }
  }

  lemma LookupIs(c: Candidate, base: string)
    ensures LookupBase(c) == Some(base) <==> Names(c, base)
  {
    FirstBaseIs(c.tags, base);
  }

  function Known(tags: seq<string>): set<string> { set t | t in tags :: Lower(t) }

  function Extra(inherited: seq<string>, known: set<string>): seq<string> {
    if inherited == [] then []
    else (if Lower(inherited[0]) in known then [] else [inherited[0]]) + Extra(inherited[1..], known)
  }

  /** A candidate without a readable base, or with nothing new to inherit, stays as it was. */
  function Inherit(c: Candidate, declared: map<string, seq<string>>): Candidate {
    var base := LookupBase(c);
    if base.None? || base.value !in declared then c
    else c.(tags := c.tags + Extra(declared[base.value], Known(c.tags)))
  }

  lemma {:induction false} ExtraMembers(inherited: seq<string>, known: set<string>)
    ensures forall t :: t in Extra(inherited, known) <==> t in inherited && Lower(t) !in known
  {
    if inherited != [] {
      assert inherited == [inherited[0]] + inherited[1..];
      ExtraMembers(inherited[1..], known);
    }
  }

  lemma {:induction false} NothingExtra(inherited: seq<string>, known: set<string>)
    requires forall t :: t in inherited ==> Lower(t) in known
    ensures Extra(inherited, known) == []
  {
    if inherited != [] {
      assert inherited[0] in inherited;
      NothingExtra(inherited[1..], known);
    }
  }

  lemma {:induction false} FirstBaseAppend(tags: seq<string>, more: seq<string>)
    requires FirstBase(tags).Some?
    ensures FirstBase(tags + more) == FirstBase(tags)
  {
    assert (tags + more)[0] == tags[0];
    if !(BASE_PREFIX <= Lower(tags[0])) {
      assert (tags + more)[1..] == tags[1..] + more;
      FirstBaseAppend(tags[1..], more);
    }
  }

  /** Only new tags are appended, all of them declared by the base, none a respelling of one already there;
      nothing else changes, the base still resolves the same, and inheriting again adds nothing. */
  lemma InheritOnlyAppends(c: Candidate, declared: map<string, seq<string>>)
    ensures
      var after := Inherit(c, declared);
      && after.repoId == c.repoId && after.pipelineTag == c.pipelineTag
      && c.tags <= after.tags
      && (forall t :: t in after.tags[|c.tags|..] ==>
            LookupBase(c).Some? && LookupBase(c).value in declared
            && t in declared[LookupBase(c).value] && Lower(t) !in Known(c.tags))
      && LookupBase(after) == LookupBase(c)
      && Inherit(after, declared) == after
  {
    var base := LookupBase(c);
    if base.Some? && base.value in declared {
      var inherited := declared[base.value];
      var extra := Extra(inherited, Known(c.tags));
      var after := Inherit(c, declared);
      ExtraMembers(inherited, Known(c.tags));
      FirstBaseAppend(c.tags, extra);
      assert after.tags[|c.tags|..] == extra;
      forall t | t in inherited ensures Lower(t) in Known(after.tags) {
        if Lower(t) in Known(c.tags) {
          var u :| u in c.tags && Lower(u) == Lower(t);
          assert u in after.tags;
        } else {
          assert t in extra;
          assert t in after.tags;
        }
      }
      NothingExtra(inherited, Known(after.tags));
      assert after.tags + [] == after.tags;
    }
  }

  /** The declared bases, each once, sorted. */
  function BasesOf(candidates: seq<Candidate>): seq<string> {
    if candidates == [] then []
    else
      var rest := BasesOf(candidates[1..]);
      var base := LookupBase(candidates[0]);
      if base.Some? then Add(base.value, rest) else rest
  }

  /** Exactly the bases some candidate may inherit from. */
  lemma {:induction false} BasesAreAll(candidates: seq<Candidate>)
    ensures Ordered(StringBefore, BasesOf(candidates))
    ensures forall b :: b in BasesOf(candidates) <==> exists c :: c in candidates && Names(c, b)
  {
    if candidates != [] {
      BasesAreAll(candidates[1..]);
      var base := LookupBase(candidates[0]);
      if base.Some? {
        AddKeepsSorted(base.value, BasesOf(candidates[1..]));
      }
      assert candidates == [candidates[0]] + candidates[1..];
      forall b ensures LookupBase(candidates[0]) == Some(b) <==> Names(candidates[0], b) {
        LookupIs(candidates[0], b);
      }
    }
  }

  predicate Respelled(tag: string, tags: seq<string>) { exists u :: u in tags && Lower(u) == Lower(tag) }

  /** What comes back for a candidate: itself, and when it may inherit, everything its base declares and nothing
      else: each declared tag is there up to case, and only new declared tags are added, after its own. */
  ghost predicate Inherits(c: Candidate, after: Candidate, read: string -> seq<string>) {
    && after.repoId == c.repoId && after.pipelineTag == c.pipelineTag && c.tags <= after.tags
    && ((forall b :: !Names(c, b)) ==> after == c)
    && (forall b :: Names(c, b) ==>
          && (forall t :: t in after.tags[|c.tags|..] ==> t in read(b) && !Respelled(t, c.tags))
          && (forall t :: t in read(b) ==> Respelled(t, after.tags)))
  }

  lemma KnownIs(tag: string, tags: seq<string>)
    ensures Lower(tag) in Known(tags) <==> Respelled(tag, tags)
  {
  }

  lemma InheritIs(c: Candidate, declared: map<string, seq<string>>, read: string -> seq<string>)
    requires forall b :: Names(c, b) ==> b in declared && declared[b] == read(b)
    ensures Inherits(c, Inherit(c, declared), read)
  {
    InheritOnlyAppends(c, declared);
    var base, after := LookupBase(c), Inherit(c, declared);
    if base.Some? {
      LookupIs(c, base.value);
      var extra := Extra(read(base.value), Known(c.tags));
      ExtraMembers(read(base.value), Known(c.tags));
      assert after.tags == c.tags + extra;
      forall b | Names(c, b) ensures b == base.value {
        LookupIs(c, b);
      }
      forall t | t in after.tags[|c.tags|..] ensures t in read(base.value) && !Respelled(t, c.tags) {
        KnownIs(t, c.tags);
      }
      forall t | t in read(base.value) ensures Respelled(t, after.tags) {
        KnownIs(t, c.tags);
        assert Lower(t) !in Known(c.tags) ==> t in extra;
        assert forall u :: u in c.tags || u in extra ==> u in after.tags;
      }
    } else {
      forall b ensures !Names(c, b) {
        LookupIs(c, b);
      }
    }
  }

  lemma NothingToInherit(candidates: seq<Candidate>, read: string -> seq<string>, c: Candidate)
    requires BasesOf(candidates) == [] && c in candidates
    ensures Inherits(c, c, read) && LookupBase(c).None?
  {
    BasesAreAll(candidates);
    if LookupBase(c).Some? {
      LookupIs(c, LookupBase(c).value);
    }
    assert forall b :: Names(c, b) ==> b in BasesOf(candidates);
  }

  /** None exactly when there is something to look up and the schedule cancels it or ends before every lookup.
      Otherwise every base some candidate may inherit from was looked up once, and nothing else was, and each
      candidate got what its base declares; without workers nothing was looked up and nothing changed. */
  method InheritTaskSignals(candidates: seq<Candidate>, read: string -> seq<string>, workers: int,
                            cancelledAtOnce: bool, ticks: seq<Tick>)
    returns (result: Option<seq<Candidate>>, lookups: seq<string>)
    ensures
      var bases := BasesOf(candidates);
      result.Some? <==>
        || bases == [] || workers < 1
        || (!cancelledAtOnce && Schedule(Pool(bases, {}, map[], []), workers, read, ticks).Finished?)
    ensures result.Some? ==> |result.value| == |candidates| && Distinct(lookups)
    ensures result.Some? && workers >= 1 ==>
      && (forall b :: b in lookups <==> exists c :: c in candidates && Names(c, b))
      && (forall i :: 0 <= i < |candidates| ==> Inherits(candidates[i], result.value[i], read))
    ensures result.Some? && workers >= 1 ==>
      forall i, declared: map<string, seq<string>> :: 0 <= i < |candidates| && Answers(declared, candidates, read)
        ==> result.value[i] == Inherit(candidates[i], declared)
    ensures result.Some? && workers < 1 ==> result.value == candidates && lookups == []
  {
    var bases := BasesOf(candidates);
    BasesAreAll(candidates);
    lookups := [];
    if bases == [] || workers < 1 {
      forall i | 0 <= i < |candidates| && bases == []
        ensures Inherits(candidates[i], candidates[i], read) && LookupBase(candidates[i]).None?
      {
        NothingToInherit(candidates, read, candidates[i]);
      }
      return Some(candidates), [];
    }
    SortedIsDistinct(bases);
    var o := FetchAll(bases, read, workers, cancelledAtOnce, ticks);
    if !o.Finished? {
      return None, [];
    }
    lookups := o.fetched;
    var list := [];
    for i := 0 to |candidates|
      invariant |list| == i
      invariant forall k :: 0 <= k < i ==> list[k] == Inherit(candidates[k], o.found)
    {
      list := list + [Inherit(candidates[i], o.found)];
    }
    forall i | 0 <= i < |candidates|
      ensures Inherits(candidates[i], list[i], read)
      ensures forall declared :: Answers(declared, candidates, read) ==> list[i] == Inherit(candidates[i], declared)
    {
      FoundIsInherited(candidates, bases, o.found, read, i);
    }
    result := Some(list);
  }

  lemma FoundIsInherited(candidates: seq<Candidate>, bases: seq<string>, found: map<string, seq<string>>,
                         read: string -> seq<string>, i: nat)
    requires i < |candidates| && bases == BasesOf(candidates)
    requires found.Keys == Members(bases) && forall b :: b in found ==> found[b] == read(b)
    ensures Inherits(candidates[i], Inherit(candidates[i], found), read)
    ensures forall declared :: Answers(declared, candidates, read)
              ==> Inherit(candidates[i], found) == Inherit(candidates[i], declared)
  {
    var c := candidates[i];
    BasesAreAll(candidates);
    forall b | Names(c, b) ensures b in found && found[b] == read(b) {
      assert b in bases;
      assert b in Members(bases);
    }
    InheritIs(c, found, read);
    if LookupBase(c).Some? {
      LookupIs(c, LookupBase(c).value);
    }
  }

  /** A table that holds the answer for every declared base. */
  ghost predicate Answers(declared: map<string, seq<string>>, candidates: seq<Candidate>, read: string -> seq<string>) {
    forall c :: c in candidates && LookupBase(c).Some? ==>
      LookupBase(c).value in declared && declared[LookupBase(c).value] == read(LookupBase(c).value)
  }
}
