/**
 Reordering retrieved evidence by a language model's answer: `_llm_rerank_hits` in
 `app/services/qdrant_store.py`.

 The answer is an arbitrary list of chunk ids: it may repeat ids, leave some out and name strangers.
 */
module Reranking {
  import opened Common
  import opened StableSort
  import RankFusion

  type Evidence = RankFusion.Evidence

  function IdOf(e: Evidence): string {
    e.chunkId
  }

  function IdsOf(es: seq<Evidence>): set<string> {
    set e | e in es :: e.chunkId
  }

  /** `by_id`: of candidates with one id the last one. */
  function ById(candidates: seq<Evidence>, id: string): (r: Option<Evidence>)
    ensures r.Some? ==> r.value in candidates && r.value.chunkId == id
    ensures r.None? ==> id !in IdsOf(candidates)
  {
    if candidates == [] then None
    else
      var k := |candidates| - 1;
      if candidates[k].chunkId == id then Some(candidates[k]) else ById(candidates[..k], id)
  }

  /** The candidates the answer names, as often and in the order it names them. */
  function Nominated(ranked: seq<string>, candidates: seq<Evidence>): seq<Evidence> {
    if ranked == [] then []
    else
      var c := ById(candidates, ranked[0]);
      (if c.Some? then [c.value] else []) + Nominated(ranked[1..], candidates)
  }

  /** The first element of each id that is not in `used`. */
  function Dedup(es: seq<Evidence>, used: set<string>): seq<Evidence> {
    if es == [] then []
    else if es[0].chunkId in used then Dedup(es[1..], used)
    else [es[0]] + Dedup(es[1..], used + {es[0].chunkId})
  }

  /** The whole order the answer induces: its nominations, then everybody else. */
  function Order(ranked: seq<string>, candidates: seq<Evidence>): seq<Evidence> {
    Dedup(Nominated(ranked, candidates) + candidates, {})
  }

  /** The two loops; each appends before it compares with `top_k`. */
  method Reorder(ranked: seq<string>, candidates: seq<Evidence>, topK: int) returns (ordered: seq<Evidence>)
    ensures ordered == FirstOf(Order(ranked, candidates), topK)
  {
    var used: set<string> := {};
    ghost var goal := Order(ranked, candidates);
    ordered := [];
    var i := 0;
    while i < |ranked|
      invariant i <= |ranked| && |ordered| < Max(1, topK)
      invariant goal == ordered + Dedup(Nominated(ranked[i..], candidates) + candidates, used)
    {
      NominateNext(ranked, i, candidates, used, ordered);
      var candidate := ById(candidates, ranked[i]);
      if candidate.Some? && ranked[i] !in used {
        ordered := ordered + [candidate.value];
        used := used + {ranked[i]};
        if |ordered| >= topK {
          FirstOfFull(ordered, Dedup(Nominated(ranked[i + 1..], candidates) + candidates, used), topK);
          return;
        }
      }
      i := i + 1;
    }
    assert Nominated(ranked[i..], candidates) + candidates == candidates[0..];
    ordered := FillUp(ordered, candidates, used, topK);
  }

  /** The second loop: candidates the answer did not name, in their old order. */
  method FillUp(chosen: seq<Evidence>, candidates: seq<Evidence>, seen: set<string>, topK: int)
    returns (ordered: seq<Evidence>)
    requires |chosen| < Max(1, topK)
    ensures ordered == FirstOf(chosen + Dedup(candidates, seen), topK)
  {
    var used := seen;
    ghost var goal := chosen + Dedup(candidates, seen);
    ordered := chosen;
    var i := 0;
    assert candidates[0..] == candidates;
    while i < |candidates|
      invariant i <= |candidates| && |ordered| < Max(1, topK)
      invariant goal == ordered + Dedup(candidates[i..], used)
    {
      TakeNext(candidates, i, used, ordered);
      if candidates[i].chunkId !in used {
        ordered := ordered + [candidates[i]];
        used := used + {candidates[i].chunkId};
        if |ordered| >= topK {
          FirstOfFull(ordered, Dedup(candidates[i + 1..], used), topK);
          return;
        }
      }
      i := i + 1;
    }
  }

  lemma TakeNext(es: seq<Evidence>, i: nat, used: set<string>, ordered: seq<Evidence>)
    requires i < |es|
    ensures ordered + Dedup(es[i..], used)
         == if es[i].chunkId in used then ordered + Dedup(es[i + 1..], used)
            else ordered + [es[i]] + Dedup(es[i + 1..], used + {es[i].chunkId})
  {
    assert es[i..][1..] == es[i + 1..];
  }

  lemma NominateNext(ranked: seq<string>, i: nat, candidates: seq<Evidence>, used: set<string>, ordered: seq<Evidence>)
    requires i < |ranked|
    ensures var c, rest := ById(candidates, ranked[i]), Nominated(ranked[i + 1..], candidates) + candidates;
            ordered + Dedup(Nominated(ranked[i..], candidates) + candidates, used) ==
            (if c.Some? && ranked[i] !in used then ordered + [c.value] + Dedup(rest, used + {ranked[i]})
             else ordered + Dedup(rest, used))
  {
    var c, rest := ById(candidates, ranked[i]), Nominated(ranked[i + 1..], candidates) + candidates;
    assert ranked[i..][1..] == ranked[i + 1..];
    if c.Some? {
      Associates([c.value], Nominated(ranked[i + 1..], candidates), candidates);
      DedupCons(c.value, rest, used);
      Associates(ordered, [c.value], Dedup(rest, used + {ranked[i]}));
    } else {
      assert Nominated(ranked[i..], candidates) == Nominated(ranked[i + 1..], candidates);
    }
  }

  lemma DedupCons(e: Evidence, es: seq<Evidence>, used: set<string>)
    ensures Dedup([e] + es, used)
         == if e.chunkId in used then Dedup(es, used) else [e] + Dedup(es, used + {e.chunkId})
  {
    assert ([e] + es)[1..] == es;
  }

  /** The reranker once it has the model's answer; an answer without ids is an error. */
  method RerankHits(items: seq<Evidence>, ranked: seq<string>, topK: nat, limitSetting: int)
    returns (r: Result<seq<Evidence>>)
    ensures items == [] ==> r == Ok([])
    ensures items != [] ==> (r.Error? <==> ranked == [])
    ensures r.Ok? && items != [] ==> r.value == FirstOf(Order(ranked, items[..Min(Max(topK, limitSetting), |items|)]), topK)
  {
    if items == [] {
      return Ok([]);
    }
    if ranked == [] {
      return Error("llm rerank ranked_chunk_ids missing");
    }
    var candidateLimit := Max(topK, limitSetting);
    var ordered := Reorder(ranked, items[..Min(candidateLimit, |items|)], topK);
    r := Ok(ordered);
  }

  // ------------------------------------------------------- what an answer can and cannot do

  lemma {:induction false} DedupAppend(a: seq<Evidence>, b: seq<Evidence>, used: set<string>)
    ensures Dedup(a + b, used) == Dedup(a, used) + Dedup(b, used + IdsOf(a))
    decreases |a|
  {
    if a == [] {
      assert a + b == b && used + IdsOf(a) == used;
    } else {
      var id := a[0].chunkId;
      assert (a + b)[1..] == a[1..] + b;
      DedupAppend(a[1..], b, used + {id});
      DedupAppend(a[1..], b, used);
      IdsOfCons(a[0], a[1..]);
      assert a == [a[0]] + a[1..];
      if id in used {
        assert used + IdsOf(a[1..]) == used + IdsOf(a);
      } else {
        assert used + {id} + IdsOf(a[1..]) == used + IdsOf(a);
      }
    }
  }

  /** Distinct ids, none of them used before, and an element for every id that was not. */
  lemma {:induction false} DedupIsDistinct(es: seq<Evidence>, used: set<string>)
    ensures DistinctBy(IdOf, Dedup(es, used))
    ensures forall e | e in Dedup(es, used) :: e in es && e.chunkId !in used
    ensures IdsOf(Dedup(es, used)) == IdsOf(es) - used
    decreases |es|
  {
    if es != [] {
      var id := es[0].chunkId;
      assert es == [es[0]] + es[1..];
      IdsOfCons(es[0], es[1..]);
      if id in used {
        DedupIsDistinct(es[1..], used);
      } else {
        DedupIsDistinct(es[1..], used + {id});
        DistinctCons(es[0], Dedup(es[1..], used + {id}));
      }
    }
  }

  lemma DistinctCons(e: Evidence, rest: seq<Evidence>)
    requires DistinctBy(IdOf, rest) && forall x | x in rest :: x.chunkId != e.chunkId
    ensures DistinctBy(IdOf, [e] + rest) && IdsOf([e] + rest) == {e.chunkId} + IdsOf(rest)
  {
    IdsOfCons(e, rest);
    assert forall k | 0 <= k < |rest| :: rest[k] in rest;
  }

  lemma {:induction false} DedupOfDistinct(es: seq<Evidence>, used: set<string>)
    requires DistinctBy(IdOf, es)
    ensures Dedup(es, used) == Filter((e: Evidence) => e.chunkId !in used, es)
    decreases |es|
  {
    var keep := (e: Evidence) => e.chunkId !in used;
    if es != [] {
      var id := es[0].chunkId;
      DedupOfDistinct(es[1..], used);
      if id !in used {
        DedupOfDistinct(es[1..], used + {id});
        forall e | e in es[1..] ensures e.chunkId != id {
          var k :| 0 < k < |es| && es[k] == e;
          assert IdOf(es[0]) != IdOf(es[k]);
        }
        FiltersAgree((e: Evidence) => e.chunkId !in used + {id}, keep, es[1..]);
      }
    }
  }

  lemma {:induction false} NominatedAreCandidates(ranked: seq<string>, candidates: seq<Evidence>)
    ensures forall e | e in Nominated(ranked, candidates) :: e in candidates && e.chunkId in ranked
    ensures forall id | id in ranked && id in IdsOf(candidates) :: id in IdsOf(Nominated(ranked, candidates))
    decreases |ranked|
  {
    if ranked != [] {
      NominatedAreCandidates(ranked[1..], candidates);
      assert ranked == [ranked[0]] + ranked[1..];
      var c := ById(candidates, ranked[0]);
      var rest := Nominated(ranked[1..], candidates);
      if c.Some? {
        IdsOfCons(c.value, rest);
      }
    }
  }

  lemma IdsOfCons(e: Evidence, es: seq<Evidence>)
    ensures IdsOf([e] + es) == {e.chunkId} + IdsOf(es)
  {
    assert e in [e] + es && forall x | x in es :: x in [e] + es;
  }

  lemma SameDistinctElements(a: seq<Evidence>, b: seq<Evidence>)
    requires DistinctBy(IdOf, a) && DistinctBy(IdOf, b) && forall e :: e in a <==> e in b
    ensures multiset(a) == multiset(b)
  {
    forall e ensures multiset(a)[e] == multiset(b)[e] {
      if e in a {
        var p :| 0 <= p < |a| && a[p] == e;
        var q :| 0 <= q < |b| && b[q] == e;
        OneOccurrence(IdOf, a, p);
        OneOccurrence(IdOf, b, q);
      }
    }
  }

  lemma SameIdSameElement(es: seq<Evidence>, a: Evidence, b: Evidence)
    requires DistinctBy(IdOf, es) && a in es && b in es && a.chunkId == b.chunkId
    ensures a == b
  {
    var i :| 0 <= i < |es| && es[i] == a;
    var k :| 0 <= k < |es| && es[k] == b;
    assert IdOf(es[i]) == IdOf(es[k]);
  }

  /** The order an answer induces: first what it names, each once, then the others in the order they had. */
  lemma OrderIsNamedThenOthers(ranked: seq<string>, candidates: seq<Evidence>)
    requires DistinctBy(IdOf, candidates)
    ensures Order(ranked, candidates)
         == Dedup(Nominated(ranked, candidates), {}) + Filter((e: Evidence) => e.chunkId !in ranked, candidates)
  {
    var named := Nominated(ranked, candidates);
    NominatedAreCandidates(ranked, candidates);
    DedupAppend(named, candidates, {});
    var names := {} + IdsOf(named);
    DedupOfDistinct(candidates, names);
    forall e | e in candidates ensures e.chunkId in names <==> e.chunkId in ranked {
      assert e.chunkId in IdsOf(candidates);
    }
    FiltersAgree((e: Evidence) => e.chunkId !in names, (e: Evidence) => e.chunkId !in ranked, candidates);
  }

  lemma OrderHoldsCandidates(ranked: seq<string>, candidates: seq<Evidence>)
    ensures DistinctBy(IdOf, Order(ranked, candidates))
    ensures forall e | e in Order(ranked, candidates) :: e in candidates
    ensures IdsOf(Order(ranked, candidates)) == IdsOf(candidates)
  {
    var named := Nominated(ranked, candidates);
    NominatedAreCandidates(ranked, candidates);
    DedupIsDistinct(named + candidates, {});
    assert IdsOf(named + candidates) == IdsOf(candidates) by {
      assert forall e | e in candidates :: e in named + candidates;
    }
  }

  /** The answer names `a` for the first time before it names `b`. */
  ghost predicate NamedBefore(ranked: seq<string>, a: string, b: string) {
    exists p :: 0 <= p < |ranked| && ranked[p] == a && b !in ranked[..p + 1]
  }

  lemma NamedBeforeInRest(ranked: seq<string>, a: string, b: string)
    requires ranked != [] && NamedBefore(ranked[1..], a, b) && ranked[0] != b
    ensures NamedBefore(ranked, a, b)
  {
    var p :| 0 <= p < |ranked[1..]| && ranked[1..][p] == a && b !in ranked[1..][..p + 1];
    assert ranked[..p + 2] == [ranked[0]] + ranked[1..][..p + 1];
    assert ranked[p + 1] == a;
  }

  lemma FirstIsNamedBefore(ranked: seq<string>, b: string)
    requires ranked != [] && ranked[0] != b
    ensures NamedBefore(ranked, ranked[0], b)
  {
    assert ranked[..1] == [ranked[0]];
  }

  ghost predicate InAnswerOrder(ranked: seq<string>, es: seq<Evidence>) {
    forall i, k | 0 <= i < k < |es| :: NamedBefore(ranked, es[i].chunkId, es[k].chunkId)
  }

  lemma AnswerOrderOfRest(ranked: seq<string>, es: seq<Evidence>)
    requires ranked != [] && InAnswerOrder(ranked[1..], es) && forall e | e in es :: e.chunkId != ranked[0]
    ensures InAnswerOrder(ranked, es)
  {
    forall i, k | 0 <= i < k < |es| ensures NamedBefore(ranked, es[i].chunkId, es[k].chunkId) {
      assert es[k] in es;
      NamedBeforeInRest(ranked, es[i].chunkId, es[k].chunkId);
    }
  }

  lemma AnswerOrderCons(ranked: seq<string>, e: Evidence, es: seq<Evidence>)
    requires ranked != [] && e.chunkId == ranked[0]
    requires InAnswerOrder(ranked, es) && forall x | x in es :: x.chunkId != ranked[0]
    ensures InAnswerOrder(ranked, [e] + es)
  {
    var all := [e] + es;
    forall i, k | 0 <= i < k < |all| ensures NamedBefore(ranked, all[i].chunkId, all[k].chunkId) {
      assert all[k] == es[k - 1] && es[k - 1] in es;
      if i == 0 {
        FirstIsNamedBefore(ranked, all[k].chunkId);
      }
    }
  }

  /** Named candidates come in the order in which the answer first names them. */
  lemma {:induction false} NamedInAnswerOrder(ranked: seq<string>, candidates: seq<Evidence>, used: set<string>)
    ensures InAnswerOrder(ranked, Dedup(Nominated(ranked, candidates), used))
    decreases |ranked|
  {
    if ranked != [] {
      var c, rest := ById(candidates, ranked[0]), Nominated(ranked[1..], candidates);
      var later := if c.Some? && ranked[0] !in used then used + {ranked[0]} else used;
      NamedInAnswerOrder(ranked[1..], candidates, later);
      DedupIsDistinct(rest, later);
      NominatedAreCandidates(ranked[1..], candidates);
      forall e | e in Dedup(rest, later) ensures e.chunkId != ranked[0] {
        assert e.chunkId in IdsOf(candidates);
      }
      AnswerOrderOfRest(ranked, Dedup(rest, later));
      if c.Some? {
        assert Nominated(ranked, candidates) == [c.value] + rest;
        DedupCons(c.value, rest, used);
        if ranked[0] !in used {
          AnswerOrderCons(ranked, c.value, Dedup(rest, later));
        }
      } else {
        assert Nominated(ranked, candidates) == rest;
      }
    }
  }

  /** Whatever the model answers, it can only permute the candidates. */
  lemma AnswersOnlyReorder(ranked: seq<string>, candidates: seq<Evidence>)
    requires DistinctBy(IdOf, candidates)
    ensures multiset(Order(ranked, candidates)) == multiset(candidates)
  {
    var all := Order(ranked, candidates);
    OrderHoldsCandidates(ranked, candidates);
    forall e ensures e in all <==> e in candidates {
      if e in candidates {
        assert e.chunkId in IdsOf(all);
        var x :| x in all && x.chunkId == e.chunkId;
        SameIdSameElement(candidates, x, e);
      }
    }
    SameDistinctElements(all, candidates);
  }

  /** A shortened order still has distinct ids and is as long as it can be. */
  lemma RerankedAreDistinctCandidates(ranked: seq<string>, candidates: seq<Evidence>, topK: int)
    ensures var r := FirstOf(Order(ranked, candidates), topK);
            && DistinctBy(IdOf, r) && (forall e | e in r :: e in candidates)
            && (|r| == Max(1, topK) || IdsOf(r) == IdsOf(candidates))
  {
    OrderHoldsCandidates(ranked, candidates);
    var all := Order(ranked, candidates);
    if |all| < Max(1, topK) {
      assert all[..|all|] == all;
    }
  }
}
