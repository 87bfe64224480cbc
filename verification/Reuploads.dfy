/** Keeping one GGUF copy per declared base model: collapse_quantized_reuploads in
    src/jaull/discovery/candidate_filter.py. */
module Reuploads {
  import opened Common
  import opened Sorting
  import opened Text

  /** folded is the case-folded repository id; base is the base model of a GGUF re-quantization. */
  datatype Copy = Copy(repoId: string, folded: string, downloads: int, likes: int, base: Option<string>)

  predicate MorePopular(a: Copy, b: Copy) {
    || a.downloads > b.downloads
    || (a.downloads == b.downloads && a.likes > b.likes)
    || (a.downloads == b.downloads && a.likes == b.likes && StringBefore(a.repoId, b.repoId))
  }

  lemma PopularityIsTotal(a: Copy, b: Copy)
    ensures a.repoId != b.repoId ==> MorePopular(a, b) || MorePopular(b, a)
    ensures !(MorePopular(a, b) && MorePopular(b, a))
  {
    StringTotal(a.repoId, b.repoId);
  }

  lemma PopularityIsTransitive(a: Copy, b: Copy, c: Copy)
    requires MorePopular(a, b) && MorePopular(b, c)
    ensures MorePopular(a, c)
  {
    if StringBefore(a.repoId, b.repoId) && StringBefore(b.repoId, c.repoId) {
      StringTransitive(a.repoId, b.repoId, c.repoId);
    }
  }

  // ---------------------------------------------------------------- meaning

  function All(copies: seq<Copy>): set<Copy> { set c | c in copies }

  ghost predicate DistinctIds(copies: seq<Copy>) {
    forall i, j :: 0 <= i < j < |copies| ==> copies[i].repoId != copies[j].repoId
  }

  /** The copies that declare the same base, as a set: their order of arrival plays no part. */
  ghost function CopiesOf(all: set<Copy>, base: string): set<Copy> { set c | c in all && c.base == Some(base) }

  ghost predicate IsHead(all: set<Copy>, base: string, h: Copy) {
    h in CopiesOf(all, base) && forall c :: c in CopiesOf(all, base) ==> c == h || MorePopular(h, c)
  }

  /** Kept: no declared base, or the most popular of its base. */
  ghost predicate IsKept(all: set<Copy>, c: Copy) {
    c in all && (c.base.Some? ==> IsHead(all, c.base.value, c))
  }

  ghost function Siblings(all: set<Copy>, h: Copy): set<Copy> {
    if h.base.None? then {} else CopiesOf(all, h.base.value) - {h}
  }

  lemma HeadIsUnique(all: set<Copy>, base: string, a: Copy, b: Copy)
    requires IsHead(all, base, a) && IsHead(all, base, b)
    ensures a == b
  {
    PopularityIsTotal(a, b);
  }

  /** No copy of its base has more downloads than the head, nor as many and more likes, nor as many of both and
      an earlier name. */
  lemma HeadHasMost(all: set<Copy>, base: string, h: Copy, c: Copy)
    requires IsHead(all, base, h) && c in all && c.base == Some(base)
    ensures c.downloads <= h.downloads
    ensures c.downloads == h.downloads ==> c.likes <= h.likes
    ensures c.downloads == h.downloads && c.likes == h.likes ==> c == h || StringBefore(h.repoId, c.repoId)
  {
    assert c in CopiesOf(all, base);
  }

  // ---------------------------------------------------------------- sorting the alternatives

  /** The alternatives' sort order is the popularity that chose the head. */
  lemma SortIsByPopularity(s: seq<Copy>)
    requires DistinctIds(s)
    ensures Ordered(MorePopular, Sort(MorePopular, s)) && All(Sort(MorePopular, s)) == All(s)
  {
    forall a, b, c | MorePopular(a, b) && MorePopular(b, c) ensures MorePopular(a, c) {
      PopularityIsTransitive(a, b, c);
    }
    forall i, j | 0 <= i < j < |s| ensures MorePopular(s[i], s[j]) || MorePopular(s[j], s[i]) {
      PopularityIsTotal(s[i], s[j]);
    }
    SortOrders(MorePopular, s);
  }

  // ---------------------------------------------------------------- the code

  /** The running maximum per base, whatever order the copies come in. */
  method BestPerBase(copies: seq<Copy>) returns (best: map<string, Copy>)
    requires DistinctIds(copies)
    ensures forall c :: c in copies && c.base.Some? ==> c.base.value in best
    ensures forall b :: b in best ==> IsHead(All(copies), b, best[b])
  {
    best := map[];
    for i := 0 to |copies|
      invariant forall c :: c in copies[..i] && c.base.Some? ==> c.base.value in best
      invariant forall b :: b in best ==> IsHead(All(copies[..i]), b, best[b])
    {
      var c := copies[i];
      assert copies[..i + 1] == copies[..i] + [c];
      assert All(copies[..i + 1]) == All(copies[..i]) + {c};
      NewHead(All(copies[..i]), best, c);
      if c.base.Some? && (c.base.value !in best || MorePopular(c, best[c.base.value])) {
        best := best[c.base.value := c];
      }
    }
    assert copies[..|copies|] == copies;
  }

  lemma NewHead(all: set<Copy>, best: map<string, Copy>, c: Copy)
    requires forall b :: b in best ==> IsHead(all, b, best[b])
    requires forall x :: x in all && x.base.Some? ==> x.base.value in best
    requires forall x :: x in all ==> x.repoId != c.repoId
    ensures
      var after := if c.base.Some? && (c.base.value !in best || MorePopular(c, best[c.base.value]))
                   then best[c.base.value := c] else best;
      forall b :: b in after ==> IsHead(all + {c}, b, after[b])
  {
    var after := if c.base.Some? && (c.base.value !in best || MorePopular(c, best[c.base.value]))
                 then best[c.base.value := c] else best;
    forall b | b in after ensures IsHead(all + {c}, b, after[b]) {
      if b in best {
        PopularityIsTotal(c, best[b]);
        forall x | x in CopiesOf(all + {c}, b) ensures x == after[b] || MorePopular(after[b], x) {
          if x != c && after[b] == c && x != best[b] {
            PopularityIsTransitive(c, best[b], x);
          }
        }
      }
    }
  }

  type Alternatives = map<string, seq<Copy>>

  function ListedUnder(alternatives: Alternatives, key: string): seq<Copy> {
    if key in alternatives then alternatives[key] else []
  }

  /** The copies set aside under one key: the siblings of every kept copy with that folded id. */
  ghost function SetAside(all: set<Copy>, best: map<string, Copy>, key: string): set<Copy> {
    set c | c in all && c.base.Some? && c.base.value in best && best[c.base.value] != c
            && best[c.base.value].folded == key
  }

  ghost predicate AlternativesHold(all: set<Copy>, best: map<string, Copy>, alternatives: Alternatives) {
    forall key :: All(ListedUnder(alternatives, key)) == SetAside(all, best, key)
  }

  method GroupAlternatives(copies: seq<Copy>, best: map<string, Copy>) returns (alternatives: Alternatives)
    requires DistinctIds(copies)
    requires forall c :: c in copies && c.base.Some? ==> c.base.value in best
    ensures AlternativesHold(All(copies), best, alternatives)
    ensures forall key :: key in alternatives ==> DistinctIds(alternatives[key])
  {
    alternatives := map[];
    for i := 0 to |copies|
      invariant AlternativesHold(All(copies[..i]), best, alternatives)
      invariant forall key :: key in alternatives ==> DistinctIds(alternatives[key])
      invariant forall key, c :: key in alternatives && c in alternatives[key] ==> c in copies[..i]
    {
      var c := copies[i];
      assert copies[..i + 1] == copies[..i] + [c];
      assert All(copies[..i + 1]) == All(copies[..i]) + {c};
      if c.base.Some? && best[c.base.value] != c {
        var key := best[c.base.value].folded;
        OneMoreAside(All(copies[..i]), best, alternatives, c);
        StillDistinct(copies, i, ListedUnder(alternatives, key));
        alternatives := alternatives[key := ListedUnder(alternatives, key) + [c]];
      } else {
        NoneAside(All(copies[..i]), best, alternatives, c);
      }
    }
    assert copies[..|copies|] == copies;
  }

  lemma StillDistinct(copies: seq<Copy>, i: nat, before: seq<Copy>)
    requires DistinctIds(copies) && i < |copies|
    requires DistinctIds(before) && forall x :: x in before ==> x in copies[..i]
    ensures DistinctIds(before + [copies[i]])
  {
    forall k | 0 <= k < |before| ensures before[k].repoId != copies[i].repoId {
      assert before[k] in copies[..i];
    }
  }

  lemma OneMoreAside(all: set<Copy>, best: map<string, Copy>, alternatives: Alternatives, c: Copy)
    requires c.base.Some? && c.base.value in best && best[c.base.value] != c
    requires AlternativesHold(all, best, alternatives)
    ensures
      var key := best[c.base.value].folded;
      AlternativesHold(all + {c}, best, alternatives[key := ListedUnder(alternatives, key) + [c]])
  {
    var key := best[c.base.value].folded;
    var before := ListedUnder(alternatives, key);
    assert All(before + [c]) == All(before) + {c};
    forall other ensures SetAside(all + {c}, best, other) == SetAside(all, best, other) + (if other == key then {c} else {}) {
    }
  }

  lemma NoneAside(all: set<Copy>, best: map<string, Copy>, alternatives: Alternatives, c: Copy)
    requires c.base.Some? ==> c.base.value in best && best[c.base.value] == c
    requires AlternativesHold(all, best, alternatives)
    ensures AlternativesHold(all + {c}, best, alternatives)
  {
  }

  method SortAlternatives(grouped: Alternatives) returns (alternatives: Alternatives)
    requires forall key :: key in grouped ==> DistinctIds(grouped[key])
    ensures alternatives.Keys == grouped.Keys
    ensures forall key :: key in alternatives ==> Ordered(MorePopular, alternatives[key]) && All(alternatives[key]) == All(grouped[key])
  {
    alternatives := map key | key in grouped :: Sort(MorePopular, grouped[key]);
    forall key | key in alternatives ensures Ordered(MorePopular, alternatives[key]) && All(alternatives[key]) == All(grouped[key]) {
      SortIsByPopularity(grouped[key]);
    }
  }

  /** The kept copies in their own order, and for each key the copies set aside, best first. */
  method CollapseQuantizedReuploads(copies: seq<Copy>) returns (kept: seq<Copy>, alternatives: Alternatives)
    requires DistinctIds(copies)
    ensures IsSubsequence(kept, copies)
    ensures forall c :: c in kept <==> IsKept(All(copies), c)
    ensures forall key :: key in alternatives ==> Ordered(MorePopular, alternatives[key])
    ensures forall key :: All(ListedUnder(alternatives, key)) == MergedSiblings(All(copies), key)
  {
    var best := BestPerBase(copies);
    kept := [];
    ghost var at: seq<nat> := [];
    for i := 0 to |copies|
      invariant |at| == |kept|
      invariant forall k :: 0 <= k < |at| ==> at[k] < i && kept[k] == copies[at[k]]
      invariant forall k, l :: 0 <= k < l < |at| ==> at[k] < at[l]
      invariant forall c :: c in kept <==> c in copies[..i] && IsKept(All(copies), c)
    {
      var c := copies[i];
      assert copies[..i + 1] == copies[..i] + [c];
      if c.base.Some? && best[c.base.value] == c {
        assert IsKept(All(copies), c);
      }
      if c.base.Some? && best[c.base.value] != c && IsKept(All(copies), c) {
        HeadIsUnique(All(copies), c.base.value, c, best[c.base.value]);
      }
      if c.base.None? || best[c.base.value] == c {
        kept := kept + [c];
        at := at + [i];
      }
    }
    assert copies[..|copies|] == copies;
    assert SubsequenceAt(kept, copies, at);
    var grouped := GroupAlternatives(copies, best);
    alternatives := SortAlternatives(grouped);
    forall key ensures SetAside(All(copies), best, key) == MergedSiblings(All(copies), key) {
      SetAsideIsMerged(All(copies), best, key);
    }
  }

  ghost predicate SubsequenceAt(s: seq<Copy>, t: seq<Copy>, at: seq<nat>) {
    && |at| == |s|
    && (forall k :: 0 <= k < |at| ==> at[k] < |t| && s[k] == t[at[k]])
    && (forall k, l :: 0 <= k < l < |at| ==> at[k] < at[l])
  }

  ghost predicate IsSubsequence(s: seq<Copy>, t: seq<Copy>) { exists at :: SubsequenceAt(s, t, at) }

  // ---------------------------------------------------------------- what it conserves

  /** The siblings of every kept copy whose folded id is this key. */
  ghost function MergedSiblings(all: set<Copy>, key: string): set<Copy> {
    set h, c | h in all && IsKept(all, h) && h.folded == key && c in Siblings(all, h) :: c
  }

  lemma SetAsideIsMerged(all: set<Copy>, best: map<string, Copy>, key: string)
    requires forall c :: c in all && c.base.Some? ==> c.base.value in best
    requires forall b :: b in best ==> IsHead(all, b, best[b])
    ensures SetAside(all, best, key) == MergedSiblings(all, key)
  {
    forall c | c in SetAside(all, best, key) ensures c in MergedSiblings(all, key) {
      var h := best[c.base.value];
      assert IsKept(all, h) && c in Siblings(all, h);
    }
    forall c | c in MergedSiblings(all, key) ensures c in SetAside(all, best, key) {
      var h :| h in all && IsKept(all, h) && h.folded == key && c in Siblings(all, h);
      HeadIsUnique(all, h.base.value, h, best[h.base.value]);
    }
  }

  /** Every copy is kept or is the sibling of exactly one kept copy, never both; and the kept copy heads
      its siblings in the order they are listed. */
  lemma EveryCopyIsPlacedOnce(all: set<Copy>, c: Copy, h: Copy)
    requires c in all && c.base.Some? && IsHead(all, c.base.value, h)
    ensures IsKept(all, h)
    ensures IsKept(all, c) <==> c == h
    ensures c != h <==> c in Siblings(all, h)
    ensures c != h ==> MorePopular(h, c)
    ensures forall other :: IsKept(all, other) && c in Siblings(all, other) ==> other == h
  {
    if IsKept(all, c) {
      HeadIsUnique(all, c.base.value, c, h);
    }
    forall other | IsKept(all, other) && c in Siblings(all, other) ensures other == h {
      HeadIsUnique(all, c.base.value, other, h);
    }
  }

  lemma {:induction false} HeadExists(all: set<Copy>, base: string)
    requires forall a, b :: a in all && b in all && a.repoId == b.repoId ==> a == b
    requires CopiesOf(all, base) != {}
    ensures exists h :: IsHead(all, base, h)
  {
    var x :| x in CopiesOf(all, base);
    var rest := all - {x};
    if CopiesOf(rest, base) == {} {
      forall c | c in CopiesOf(all, base) ensures c == x {
        assert c != x ==> c in CopiesOf(rest, base);
      }
      assert IsHead(all, base, x);
    } else {
      HeadExists(rest, base);
      var h :| IsHead(rest, base, h);
      PopularityIsTotal(x, h);
      var winner := if MorePopular(x, h) then x else h;
      forall c | c in CopiesOf(all, base) ensures c == winner || MorePopular(winner, c) {
        assert c == x || c in CopiesOf(rest, base);
        if winner == x && c != x && c != h {
          PopularityIsTransitive(x, h, c);
        }
      }
      assert IsHead(all, base, winner);
    }
  }

  ghost predicate OwnSiblings(all: set<Copy>, h: Copy) { MergedSiblings(all, h.folded) == Siblings(all, h) }

  /** No two kept copies share a folded id, unless neither has anything set aside. */
  ghost predicate NoKeyClash(all: set<Copy>) {
    forall h, k :: h in all && k in all && IsKept(all, h) && IsKept(all, k) && h != k && h.folded == k.folded
      ==> Siblings(all, h) == {}
  }

  /** Looking a kept copy up by its folded id gives exactly its own siblings, for all of them, if and only
      if no key is shared. */
  lemma LookupIsExactIff(all: set<Copy>)
    ensures (forall h :: h in all && IsKept(all, h) ==> OwnSiblings(all, h)) <==> NoKeyClash(all)
  {
  }

  /** Checking the ids is enough: when no two copies share a folded id, every lookup is exact. */
  lemma DistinctFoldedIdsSuffice(all: set<Copy>)
    requires forall a, b :: a in all && b in all && a.folded == b.folded ==> a == b
    ensures forall h :: h in all && IsKept(all, h) ==> OwnSiblings(all, h)
  {
    LookupIsExactIff(all);
  }

  const UPPER_CASE := Copy("Org/A", "org/a", 10, 0, Some("x"))
  const SET_ASIDE := Copy("u/a2", "u/a2", 1, 0, Some("x"))
  const LOWER_CASE := Copy("org/a", "org/a", 5, 0, None)

  /** Two repositories whose ids differ in case only: the one without a base has no copies, and yet looking it
      up finds the copy set aside for the other. */
  lemma LookupFindsAnothersCopy()
    ensures
      var all := {UPPER_CASE, SET_ASIDE, LOWER_CASE};
      && IsKept(all, UPPER_CASE) && IsKept(all, LOWER_CASE)
      && Siblings(all, LOWER_CASE) == {} && MergedSiblings(all, LOWER_CASE.folded) == {SET_ASIDE}
      && !OwnSiblings(all, LOWER_CASE)
  {
    var all := {UPPER_CASE, SET_ASIDE, LOWER_CASE};
    assert CopiesOf(all, "x") == {UPPER_CASE, SET_ASIDE};
    assert MorePopular(UPPER_CASE, SET_ASIDE);
    assert UPPER_CASE.folded[0] == 'o' && SET_ASIDE.folded[0] == 'u';
    assert SET_ASIDE in Siblings(all, UPPER_CASE);
    assert !IsHead(all, "x", SET_ASIDE);
    assert MergedSiblings(all, LOWER_CASE.folded) == {SET_ASIDE};
  }
}
