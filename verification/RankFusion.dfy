/**
 Hybrid retrieval: `_fuse_hybrid` and `_is_payload_allowed` in `app/services/qdrant_store.py`.

 Dates are day numbers, which order like the ISO strings the program compares; scores are exact reals.
 */
module RankFusion {
  import opened Common
  import opened StableSort

  datatype Payload = Payload(
    text: string,
    sensitivity: Option<string>,
    forbiddenTags: set<string>,
    validTo: Option<int>,
    standardStatus: Option<string>,
    expirationDate: Option<int>)

  datatype Hit = Hit(chunkId: string, payload: Payload)

  datatype Candidate = Candidate(chunkId: string, payload: Payload, vectorRank: Option<nat>, sparseRank: Option<nat>)

  datatype Evidence = Evidence(chunkId: string, score: real, text: string, payload: Payload)

  /** `_is_payload_allowed` on day `today` */
  predicate IsPayloadAllowed(p: Payload, today: int) {
    if p.sensitivity.Some? && p.sensitivity.value != "PUBLIC_OK" then false
    else if "PRICING_RELATED" in p.forbiddenTags then false
    else if p.validTo.Some? && p.validTo.value < today then false
    else if p.standardStatus.Some? && p.standardStatus.value == "deprecated" then false
    else !(p.expirationDate.Some? && p.expirationDate.value < today)
  }

  /** What may be shown: public, unpriced, in force today, with something to read. */
  predicate Showable(p: Payload, today: int) {
    && p.text != ""
    && (p.sensitivity == None || p.sensitivity == Some("PUBLIC_OK"))
    && "PRICING_RELATED" !in p.forbiddenTags
    && p.standardStatus != Some("deprecated")
    && (p.validTo.Some? ==> today <= p.validTo.value)
    && (p.expirationDate.Some? ==> today <= p.expirationDate.value)
  }

  predicate Usable(c: Candidate, today: int) {
    IsPayloadAllowed(c.payload, today) && c.payload.text != ""
  }

  function RankScore(rank: Option<nat>, rrfK: nat): real {
    if rank.Some? then 1.0 / (rrfK + rank.value + 1) as real else 0.0
  }

  function FusionScore(c: Candidate, rrfK: nat): real {
    RankScore(c.vectorRank, rrfK) + RankScore(c.sparseRank, rrfK)
  }

  /** `reverse=True`: a higher score sorts first, equal scores keep the order of first appearance. */
  function HigherScore(rrfK: nat): (Candidate, Candidate) -> bool {
    (a: Candidate, b: Candidate) => FusionScore(a, rrfK) > FusionScore(b, rrfK)
  }

  // ----------------------------------------------------------- merging the two hit lists

  /** The last position of a chunk in a hit list; a later duplicate overwrites the rank of an earlier one. */
  function LastRank(hits: seq<Hit>, id: string): (r: Option<nat>)
    ensures r.Some? ==> r.value < |hits| && hits[r.value].chunkId == id
    ensures r.Some? ==> forall k | r.value < k < |hits| :: hits[k].chunkId != id
    ensures r.None? ==> forall k | 0 <= k < |hits| :: hits[k].chunkId != id
  {
    if hits == [] then None
    else if hits[|hits| - 1].chunkId == id then Some(|hits| - 1)
    else LastRank(hits[..|hits| - 1], id)
  }

  /** What the two lists say about one chunk. */
  ghost predicate Describes(c: Candidate, vector: seq<Hit>, sparse: seq<Hit>) {
    && c.vectorRank == LastRank(vector, c.chunkId)
    && c.sparseRank == LastRank(sparse, c.chunkId)
    && (c.vectorRank.Some? || c.sparseRank.Some?)
    && c.payload == if c.sparseRank.Some? then sparse[c.sparseRank.value].payload else vector[c.vectorRank.value].payload
  }

  function IdOf(c: Candidate): string {
    c.chunkId
  }

  /** One candidate per chunk hit, in order of first appearance. */
  ghost predicate IsMerge(cs: seq<Candidate>, vector: seq<Hit>, sparse: seq<Hit>) {
    Lists(cs, Ids(vector + sparse), vector, sparse)
  }

  ghost predicate Lists(cs: seq<Candidate>, ids: seq<string>, vector: seq<Hit>, sparse: seq<Hit>) {
    && |cs| == |ids|
    && (forall i | 0 <= i < |cs| :: cs[i].chunkId == ids[i] && Describes(cs[i], vector, sparse))
  }

  /** The chunk ids of a hit list, each once, in order of first appearance. */
  function Ids(hits: seq<Hit>): (ids: seq<string>)
    ensures forall h | h in hits :: h.chunkId in ids
    ensures forall i, k | 0 <= i < k < |ids| :: ids[i] != ids[k]
    ensures forall id | id in ids :: exists k | 0 <= k < |hits| :: hits[k].chunkId == id
  {
    if hits == [] then []
    else
      var h, ids := hits[|hits| - 1], Ids(hits[..|hits| - 1]);
      if h.chunkId in ids then ids else ids + [h.chunkId]
  }

  lemma UnlistedIsNotHit(hits: seq<Hit>, j: nat, id: string)
    requires j < |hits| && id !in Ids(hits)
    ensures hits[j].chunkId != id
  {
    assert hits[j] in hits;
  }

  /** An earlier id appears before the first hit of a later one. */
  lemma {:induction false} IdsInOrderOfAppearance(hits: seq<Hit>, i: nat, k: nat) returns (p: nat)
    requires i < k < |Ids(hits)|
    ensures p < |hits| && hits[p].chunkId == Ids(hits)[i] && forall j | 0 <= j <= p :: hits[j].chunkId != Ids(hits)[k]
    decreases |hits|
  {
    var front := hits[..|hits| - 1];
    var before := Ids(front);
    if k < |before| {
      p := IdsInOrderOfAppearance(front, i, k);
      assert forall j | 0 <= j <= p :: hits[j] == front[j];
    } else {
      assert before[i] in before;
      p :| 0 <= p < |front| && front[p].chunkId == before[i];
      forall j | 0 <= j <= p ensures hits[j].chunkId != Ids(hits)[k] {
        UnlistedIsNotHit(front, j, Ids(hits)[k]);
      }
    }
  }

  function Position(cs: seq<Candidate>, id: string): (i: nat)
    ensures i <= |cs|
    ensures i < |cs| ==> cs[i].chunkId == id
    ensures forall k | 0 <= k < i :: cs[k].chunkId != id
  {
    if cs == [] || cs[0].chunkId == id then 0 else 1 + Position(cs[1..], id)
  }

  /** The candidate dictionary, by insertion order. */
  class CandidateTable {
    var cs: seq<Candidate>

    constructor ()
      ensures cs == []
    {
      cs := [];
    }

    /** `setdefault`, then overwriting the payload and the rank in one of the lists. */
    method Add(h: Hit, rank: nat, isVector: bool)
      modifies this
      ensures cs == Upsert(old(cs), h, rank, isVector)
    {
      var at := Position(cs, h.chunkId);
      if at == |cs| {
        cs := cs + [Candidate(h.chunkId, h.payload, None, None)];
      }
      cs := cs[at := Touch(cs[at], h, rank, isVector)];
    }
  }

  lemma LastRankAppend(hits: seq<Hit>, h: Hit, id: string)
    ensures LastRank(hits + [h], id) == if h.chunkId == id then Some(|hits|) else LastRank(hits, id)
  {
    assert (hits + [h])[..|hits|] == hits;
  }

  lemma IdsAppend(hits: seq<Hit>, h: Hit)
    ensures Ids(hits + [h]) == if h.chunkId in Ids(hits) then Ids(hits) else Ids(hits) + [h.chunkId]
  {
    assert (hits + [h])[..|hits|] == hits;
  }

  lemma {:induction false} AbsentHasNoRank(hits: seq<Hit>, id: string)
    requires forall h | h in hits :: h.chunkId != id
    ensures LastRank(hits, id) == None
    decreases |hits|
  {
    if hits != [] {
      assert hits[|hits| - 1] in hits;
      AbsentHasNoRank(hits[..|hits| - 1], id);
    }
  }

  /** The entry of a chunk after a hit on it; `c` is its entry so far, or a blank one. */
  function Touch(c: Candidate, h: Hit, rank: nat, isVector: bool): Candidate {
    var now := c.(payload := h.payload);
    if isVector then now.(vectorRank := Some(rank)) else now.(sparseRank := Some(rank))
  }

  /** What describes a chunk other than `id` goes on describing it. */
  ghost predicate OthersKeep(id: string, vector: seq<Hit>, sparse: seq<Hit>, v: seq<Hit>, t: seq<Hit>) {
    forall c | Describes(c, vector, sparse) && c.chunkId != id :: Describes(c, v, t)
  }

  lemma OthersStayDescribed(h: Hit, vector: seq<Hit>, sparse: seq<Hit>)
    ensures OthersKeep(h.chunkId, vector, sparse, vector + [h], sparse)
    ensures OthersKeep(h.chunkId, vector, sparse, vector, sparse + [h])
  {
    forall c | Describes(c, vector, sparse) && c.chunkId != h.chunkId
      ensures Describes(c, vector + [h], sparse) && Describes(c, vector, sparse + [h])
    {
      LastRankAppend(vector, h, c.chunkId);
      LastRankAppend(sparse, h, c.chunkId);
    }
  }

  lemma TouchedIsDescribed(c: Candidate, h: Hit, isVector: bool, vector: seq<Hit>, sparse: seq<Hit>)
    requires c.chunkId == h.chunkId && (isVector ==> sparse == [])
    requires c.vectorRank == LastRank(vector, c.chunkId) && c.sparseRank == LastRank(sparse, c.chunkId)
    ensures isVector ==> Describes(Touch(c, h, |vector|, true), vector + [h], sparse)
    ensures !isVector ==> Describes(Touch(c, h, |sparse|, false), vector, sparse + [h])
  {
    LastRankAppend(vector, h, c.chunkId);
    LastRankAppend(sparse, h, c.chunkId);
  }

  lemma KnownIffListed(cs: seq<Candidate>, h: Hit, vector: seq<Hit>, sparse: seq<Hit>)
    requires IsMerge(cs, vector, sparse)
    ensures Position(cs, h.chunkId) < |cs| <==> h.chunkId in Ids(vector + sparse)
    ensures Position(cs, h.chunkId) == |cs| ==> LastRank(vector, h.chunkId) == None && LastRank(sparse, h.chunkId) == None
  {
    var ids, at := Ids(vector + sparse), Position(cs, h.chunkId);
    if at < |cs| {
      assert ids[at] == h.chunkId;
    } else {
      assert forall x | x in vector :: x in vector + sparse;
      assert forall x | x in sparse :: x in vector + sparse;
      AbsentHasNoRank(vector, h.chunkId);
      AbsentHasNoRank(sparse, h.chunkId);
    }
  }

  /** Lists `v` and `t` extend the merged ones by one hit whose chunk `touched` describes. */
  lemma ReplaceOrAppend(before: seq<Candidate>, ids: seq<string>, at: nat, touched: Candidate,
                        vector: seq<Hit>, sparse: seq<Hit>, v: seq<Hit>, t: seq<Hit>)
    requires Lists(before, ids, vector, sparse) && at <= |before|
    requires forall i, k | 0 <= i < k < |ids| :: ids[i] != ids[k]
    requires at < |before| ==> ids[at] == touched.chunkId
    requires OthersKeep(touched.chunkId, vector, sparse, v, t)
    requires Describes(touched, v, t)
    ensures at < |before| ==> Lists(before[at := touched], ids, v, t)
    ensures at == |before| && touched.chunkId !in ids ==> Lists(before + [touched], ids + [touched.chunkId], v, t)
  {
    forall i | 0 <= i < |before| && ids[i] != touched.chunkId ensures Describes(before[i], v, t) {
      assert Describes(before[i], vector, sparse);
    }
  }

  /** The dictionary after a hit: its entry overwritten, or a new one appended. */
  function Upsert(cs: seq<Candidate>, h: Hit, rank: nat, isVector: bool): seq<Candidate> {
    var at := Position(cs, h.chunkId);
    if at < |cs| then cs[at := Touch(cs[at], h, rank, isVector)]
    else cs + [Touch(Candidate(h.chunkId, h.payload, None, None), h, rank, isVector)]
  }

  function EntryFor(cs: seq<Candidate>, h: Hit): Candidate {
    var at := Position(cs, h.chunkId);
    if at < |cs| then cs[at] else Candidate(h.chunkId, h.payload, None, None)
  }

  lemma EntryHasRanks(cs: seq<Candidate>, h: Hit, vector: seq<Hit>, sparse: seq<Hit>)
    requires IsMerge(cs, vector, sparse)
    ensures var e := EntryFor(cs, h);
            e.chunkId == h.chunkId && e.vectorRank == LastRank(vector, h.chunkId) && e.sparseRank == LastRank(sparse, h.chunkId)
  {
    KnownIffListed(cs, h, vector, sparse);
  }

  /** Putting a described entry where the chunk is known, or at the end, extends the merge by one hit. */
  lemma UpsertExtends(cs: seq<Candidate>, h: Hit, rank: nat, isVector: bool,
                      vector: seq<Hit>, sparse: seq<Hit>, v: seq<Hit>, t: seq<Hit>)
    requires IsMerge(cs, vector, sparse) && OthersKeep(h.chunkId, vector, sparse, v, t)
    requires Describes(Touch(EntryFor(cs, h), h, rank, isVector), v, t)
    ensures var ids := Ids(vector + sparse);
            Lists(Upsert(cs, h, rank, isVector), if h.chunkId in ids then ids else ids + [h.chunkId], v, t)
  {
    KnownIffListed(cs, h, vector, sparse);
    ReplaceOrAppend(cs, Ids(vector + sparse), Position(cs, h.chunkId), Touch(EntryFor(cs, h), h, rank, isVector),
                    vector, sparse, v, t);
  }

  lemma MergeVectorHit(cs: seq<Candidate>, h: Hit, vector: seq<Hit>)
    requires IsMerge(cs, vector, [])
    ensures IsMerge(Upsert(cs, h, |vector|, true), vector + [h], [])
  {
    EntryHasRanks(cs, h, vector, []);
    TouchedIsDescribed(EntryFor(cs, h), h, true, vector, []);
    OthersStayDescribed(h, vector, []);
    UpsertExtends(cs, h, |vector|, true, vector, [], vector + [h], []);
    VectorIdsAppend(vector, h);
  }

  lemma VectorIdsAppend(vector: seq<Hit>, h: Hit)
    ensures var ids := Ids(vector + []);
            Ids(vector + [h] + []) == if h.chunkId in ids then ids else ids + [h.chunkId]
  {
    assert vector + [] == vector && vector + [h] + [] == vector + [h];
    IdsAppend(vector, h);
  }

  lemma MergeSparseHit(cs: seq<Candidate>, h: Hit, vector: seq<Hit>, sparse: seq<Hit>)
    requires IsMerge(cs, vector, sparse)
    ensures IsMerge(Upsert(cs, h, |sparse|, false), vector, sparse + [h])
  {
    EntryHasRanks(cs, h, vector, sparse);
    TouchedIsDescribed(EntryFor(cs, h), h, false, vector, sparse);
    OthersStayDescribed(h, vector, sparse);
    UpsertExtends(cs, h, |sparse|, false, vector, sparse, vector, sparse + [h]);
    SparseIdsAppend(vector, sparse, h);
  }

  lemma SparseIdsAppend(vector: seq<Hit>, sparse: seq<Hit>, h: Hit)
    ensures var ids := Ids(vector + sparse);
            Ids(vector + (sparse + [h])) == if h.chunkId in ids then ids else ids + [h.chunkId]
  {
    IdsAppend(vector + sparse, h);
    assert vector + (sparse + [h]) == (vector + sparse) + [h];
  }

  // -------------------------------------------------------------------------- fusion

  function ToEvidence(c: Candidate, rrfK: nat): Evidence {
    Evidence(c.chunkId, FusionScore(c, rrfK), c.payload.text, c.payload)
  }

  function ToEvidences(cs: seq<Candidate>, rrfK: nat): (r: seq<Evidence>)
    ensures |r| == |cs| && forall i | 0 <= i < |cs| :: r[i] == ToEvidence(cs[i], rrfK)
  {
    seq(|cs|, i requires 0 <= i < |cs| => ToEvidence(cs[i], rrfK))
  }

  /** The result for a candidate list: filter, sort stably by score, take the first ones. */
  function FilterSortTake(cs: seq<Candidate>, topK: int, rrfK: nat, today: int): seq<Candidate> {
    FirstOf(Sort(HigherScore(rrfK), Filter((c: Candidate) => Usable(c, today), cs)), topK)
  }

  lemma MergeNextVectorHit(cs: seq<Candidate>, hits: seq<Hit>, i: nat)
    requires i < |hits| && IsMerge(cs, hits[..i], [])
    ensures IsMerge(Upsert(cs, hits[i], i, true), hits[..i + 1], [])
  {
    assert hits[..i + 1] == hits[..i] + [hits[i]];
    MergeVectorHit(cs, hits[i], hits[..i]);
  }

  lemma MergeNextSparseHit(cs: seq<Candidate>, hits: seq<Hit>, i: nat, vector: seq<Hit>)
    requires i < |hits| && IsMerge(cs, vector, hits[..i])
    ensures IsMerge(Upsert(cs, hits[i], i, false), vector, hits[..i + 1])
  {
    assert hits[..i + 1] == hits[..i] + [hits[i]];
    MergeSparseHit(cs, hits[i], vector, hits[..i]);
  }

  // ------------------------------------------------------- the answer in terms of the hits

  /** What a chunk is shown with: the payload of its last sparse hit, or else of its last vector hit. */
  function FusedPayload(vector: seq<Hit>, sparse: seq<Hit>, id: string): Option<Payload> {
    if LastRank(sparse, id).Some? then Some(sparse[LastRank(sparse, id).value].payload)
    else if LastRank(vector, id).Some? then Some(vector[LastRank(vector, id).value].payload)
    else None
  }

  /** Reciprocal ranks, counted from zero, summed over the lists that have the chunk. */
  function FusedScore(vector: seq<Hit>, sparse: seq<Hit>, id: string, rrfK: nat): real {
    var v, s := LastRank(vector, id), LastRank(sparse, id);
    if v.Some? && s.Some? then 1.0 / (rrfK + v.value + 1) as real + 1.0 / (rrfK + s.value + 1) as real
    else if v.Some? then 1.0 / (rrfK + v.value + 1) as real
    else if s.Some? then 1.0 / (rrfK + s.value + 1) as real
    else 0.0
  }

  ghost predicate IsFusedItem(vector: seq<Hit>, sparse: seq<Hit>, rrfK: nat, today: int, e: Evidence) {
    && FusedPayload(vector, sparse, e.chunkId) == Some(e.payload) && e.text == e.payload.text
    && Showable(e.payload, today) && e.score == FusedScore(vector, sparse, e.chunkId, rrfK)
  }

  ghost predicate HasId(items: seq<Evidence>, id: string) {
    exists e :: e in items && e.chunkId == id
  }

  /** Distinct showable chunks, best first; a showable one is left out only for `top_k` that score no less. */
  ghost predicate IsFusion(vector: seq<Hit>, sparse: seq<Hit>, topK: int, rrfK: nat, today: int, items: seq<Evidence>) {
    && |items| <= Max(1, topK)
    && (forall i, k | 0 <= i < k < |items| :: items[i].chunkId != items[k].chunkId && items[i].score >= items[k].score)
    && (forall e | e in items :: IsFusedItem(vector, sparse, rrfK, today, e))
    && (forall id | !HasId(items, id) && FusedPayload(vector, sparse, id).Some? ::
          Showable(FusedPayload(vector, sparse, id).value, today) ==>
            |items| == Max(1, topK) && forall e | e in items :: e.score >= FusedScore(vector, sparse, id, rrfK))
  }

  lemma UsableIsShowable(c: Candidate, today: int)
    ensures Usable(c, today) <==> Showable(c.payload, today)
  {
  }

  lemma CandidateIsFused(c: Candidate, vector: seq<Hit>, sparse: seq<Hit>, rrfK: nat)
    requires Describes(c, vector, sparse)
    ensures FusedPayload(vector, sparse, c.chunkId) == Some(c.payload)
    ensures FusionScore(c, rrfK) == FusedScore(vector, sparse, c.chunkId, rrfK)
  {
  }

  /** Every chunk that was hit has its candidate. */
  lemma HitHasCandidate(cs: seq<Candidate>, vector: seq<Hit>, sparse: seq<Hit>, id: string) returns (c: Candidate)
    requires IsMerge(cs, vector, sparse) && FusedPayload(vector, sparse, id).Some?
    ensures c in cs && c.chunkId == id && Describes(c, vector, sparse)
  {
    var h := if LastRank(sparse, id).Some? then sparse[LastRank(sparse, id).value] else vector[LastRank(vector, id).value];
    InConcat(vector, sparse, h);
    var ids := Ids(vector + sparse);
    assert id in ids;
    var i :| 0 <= i < |ids| && ids[i] == id;
    c := cs[i];
  }

  lemma ChosenAreFusion(cs: seq<Candidate>, vector: seq<Hit>, sparse: seq<Hit>, topK: int, rrfK: nat, today: int)
    requires IsMerge(cs, vector, sparse)
    ensures IsFusion(vector, sparse, topK, rrfK, today, ToEvidences(FilterSortTake(cs, topK, rrfK, today), rrfK))
  {
    var chosen := FilterSortTake(cs, topK, rrfK, today);
    var items := ToEvidences(chosen, rrfK);
    FusedResult(cs, vector, sparse, topK, rrfK, today);
    forall i, k | 0 <= i < k < |items| ensures items[i].chunkId != items[k].chunkId && items[i].score >= items[k].score {
      assert IdOf(chosen[i]) != IdOf(chosen[k]) && !HigherScore(rrfK)(chosen[k], chosen[i]);
    }
    forall e | e in items ensures IsFusedItem(vector, sparse, rrfK, today, e) {
      var i :| 0 <= i < |items| && items[i] == e;
      ChosenIsFused(cs, vector, sparse, chosen[i], rrfK, today);
    }
    forall id | !HasId(items, id) && FusedPayload(vector, sparse, id).Some? && Showable(FusedPayload(vector, sparse, id).value, today)
      ensures |items| == Max(1, topK) && forall e | e in items :: e.score >= FusedScore(vector, sparse, id, rrfK)
    {
      LeftOutScoresLess(cs, vector, sparse, topK, rrfK, today, id);
    }
  }

  lemma ChosenIsFused(cs: seq<Candidate>, vector: seq<Hit>, sparse: seq<Hit>, c: Candidate, rrfK: nat, today: int)
    requires IsMerge(cs, vector, sparse) && c in cs && Usable(c, today)
    ensures IsFusedItem(vector, sparse, rrfK, today, ToEvidence(c, rrfK))
  {
    var i :| 0 <= i < |cs| && cs[i] == c;
    assert Describes(cs[i], vector, sparse);
    CandidateIsFused(c, vector, sparse, rrfK);
    UsableIsShowable(c, today);
  }

  lemma ChosenHasId(chosen: seq<Candidate>, c: Candidate, rrfK: nat)
    requires c in chosen
    ensures HasId(ToEvidences(chosen, rrfK), c.chunkId)
  {
    var i :| 0 <= i < |chosen| && chosen[i] == c;
    assert ToEvidences(chosen, rrfK)[i] in ToEvidences(chosen, rrfK);
  }

  lemma LeftOutScoresLess(cs: seq<Candidate>, vector: seq<Hit>, sparse: seq<Hit>, topK: int, rrfK: nat, today: int, id: string)
    requires IsMerge(cs, vector, sparse)
    requires FusedPayload(vector, sparse, id).Some? && Showable(FusedPayload(vector, sparse, id).value, today)
    requires !HasId(ToEvidences(FilterSortTake(cs, topK, rrfK, today), rrfK), id)
    ensures var items := ToEvidences(FilterSortTake(cs, topK, rrfK, today), rrfK);
            |items| == Max(1, topK) && forall e | e in items :: e.score >= FusedScore(vector, sparse, id, rrfK)
  {
    var chosen := FilterSortTake(cs, topK, rrfK, today);
    var items := ToEvidences(chosen, rrfK);
    var c := HitHasCandidate(cs, vector, sparse, id);
    CandidateIsFused(c, vector, sparse, rrfK);
    UsableIsShowable(c, today);
    FusedResult(cs, vector, sparse, topK, rrfK, today);
    if c in chosen {
      ChosenHasId(chosen, c, rrfK);
    }
    forall e | e in items ensures e.score >= FusedScore(vector, sparse, id, rrfK) {
      var i :| 0 <= i < |items| && items[i] == e;
      assert chosen[i] in chosen;
    }
  }

  method AddVectorHits(table: CandidateTable, hits: seq<Hit>)
    requires table.cs == []
    modifies table
    ensures IsMerge(table.cs, hits, [])
  {
    var i := 0;
    while i < |hits|
      invariant i <= |hits|
      invariant IsMerge(table.cs, hits[..i], [])
    {
      MergeNextVectorHit(table.cs, hits, i);
      table.Add(hits[i], i, true);
      i := i + 1;
    }
    assert hits[..i] == hits;
  }

  method AddSparseHits(table: CandidateTable, hits: seq<Hit>, ghost vector: seq<Hit>)
    requires IsMerge(table.cs, vector, [])
    modifies table
    ensures IsMerge(table.cs, vector, hits)
  {
    var i := 0;
    while i < |hits|
      invariant i <= |hits|
      invariant IsMerge(table.cs, vector, hits[..i])
    {
      MergeNextSparseHit(table.cs, hits, i, vector);
      table.Add(hits[i], i, false);
      i := i + 1;
    }
    assert hits[..i] == hits;
  }

  /** The answer is the filter-sort-take of the merged candidates, although the code sorts before it filters. */
  method FuseHybrid(vectorHits: seq<Hit>, sparseHits: seq<Hit>, topK: int, rrfSetting: int, today: int)
    returns (items: seq<Evidence>)
    ensures exists cs :: IsMerge(cs, vectorHits, sparseHits)
                         && items == ToEvidences(FilterSortTake(cs, topK, Max(1, rrfSetting), today), Max(1, rrfSetting))
    ensures IsFusion(vectorHits, sparseHits, topK, Max(1, rrfSetting), today, items)
  {
    var table := new CandidateTable();
    AddVectorHits(table, vectorHits);
    AddSparseHits(table, sparseHits, vectorHits);
    var candidates := table.cs;
    var rrfK: nat := Max(1, rrfSetting);
    var ranked := Sort(HigherScore(rrfK), candidates);
    items := Collect(ranked, topK, rrfK, today);
    HigherScoreIsWeakOrder(rrfK);
    FilterThenSort(HigherScore(rrfK), (c: Candidate) => Usable(c, today), candidates);
    ChosenAreFusion(candidates, vectorHits, sparseHits, topK, rrfK, today);
  }

  /** The closing loop, which appends before it compares with `top_k`. */
  method Collect(ranked: seq<Candidate>, topK: int, rrfK: nat, today: int) returns (items: seq<Evidence>)
    ensures items == ToEvidences(FirstOf(Filter((c: Candidate) => Usable(c, today), ranked), topK), rrfK)
  {
    items := [];
    ghost var keep := (c: Candidate) => Usable(c, today);
    ghost var kept: seq<Candidate> := [];
    var i := 0;
    while i < |ranked|
      invariant i <= |ranked| && |items| < Max(1, topK)
      invariant items == ToEvidences(kept, rrfK) && Filter(keep, ranked) == kept + Filter(keep, ranked[i..])
    {
      FilterFrom(keep, ranked, i, kept);
      if Usable(ranked[i], today) {
        items := items + [ToEvidence(ranked[i], rrfK)];
        kept := kept + [ranked[i]];
        if |items| >= topK {
          assert FirstOf(Filter(keep, ranked), topK) == kept;
          return;
        }
      }
      i := i + 1;
    }
    assert FirstOf(Filter(keep, ranked), topK) == kept;
  }

  lemma FilterFrom(keep: Candidate -> bool, ranked: seq<Candidate>, i: nat, kept: seq<Candidate>)
    requires i < |ranked|
    ensures kept + Filter(keep, ranked[i..])
         == (if keep(ranked[i]) then kept + [ranked[i]] else kept) + Filter(keep, ranked[i + 1..])
  {
    assert ranked[i..][1..] == ranked[i + 1..];
    if keep(ranked[i]) {
      Associates(kept, [ranked[i]], Filter(keep, ranked[i + 1..]));
    }
  }

  lemma HigherScoreIsWeakOrder(rrfK: nat)
    ensures IsWeakOrder(HigherScore(rrfK))
  {
  }

  /** What callers get: distinct allowed chunks with text, best first, and nothing better left out. */
  lemma FusedResult(cs: seq<Candidate>, vector: seq<Hit>, sparse: seq<Hit>, topK: int, rrfK: nat, today: int)
    requires IsMerge(cs, vector, sparse)
    ensures var r := FilterSortTake(cs, topK, rrfK, today);
            && DistinctBy(IdOf, r) && SortedBy(HigherScore(rrfK), r)
            && |r| <= Max(1, topK)
            && (forall c | c in r :: c in cs && Usable(c, today) && Showable(c.payload, today))
            && (forall c | c in cs && Showable(c.payload, today) && c !in r ::
                  |r| == Max(1, topK) && forall x | x in r :: FusionScore(x, rrfK) >= FusionScore(c, rrfK))
  {
    var less, keep := HigherScore(rrfK), (c: Candidate) => Usable(c, today);
    var kept := Filter(keep, cs);
    HigherScoreIsWeakOrder(rrfK);
    FilterIsIn(keep, cs);
    SortSorts(less, kept);
    SameElements(kept, Sort(less, kept));
    MergeIsDistinct(cs, vector, sparse);
    FilterKeepsDistinct(IdOf, keep, cs);
    PermutationKeepsDistinct(IdOf, kept, Sort(less, kept));
    FirstOfSorted(Sort(less, kept), topK, rrfK);
  }

  lemma MergeIsDistinct(cs: seq<Candidate>, vector: seq<Hit>, sparse: seq<Hit>)
    requires IsMerge(cs, vector, sparse)
    ensures DistinctBy(IdOf, cs)
  {
    assert forall i | 0 <= i < |cs| :: IdOf(cs[i]) == Ids(vector + sparse)[i];
  }

  lemma FirstOfSorted(sorted: seq<Candidate>, topK: int, rrfK: nat)
    requires SortedBy(HigherScore(rrfK), sorted)
    ensures forall c | c in FirstOf(sorted, topK) :: c in sorted
    ensures forall c | c in sorted && c !in FirstOf(sorted, topK) ::
              |FirstOf(sorted, topK)| == Max(1, topK)
              && forall x | x in FirstOf(sorted, topK) :: FusionScore(x, rrfK) >= FusionScore(c, rrfK)
  {
    var first := FirstOf(sorted, topK);
    forall c | c in sorted && c !in first
      ensures |first| == Max(1, topK) && forall x | x in first :: FusionScore(x, rrfK) >= FusionScore(c, rrfK)
    {
      var k :| 0 <= k < |sorted| && sorted[k] == c;
      assert k >= |first|;
      assert forall i | 0 <= i < k :: !HigherScore(rrfK)(sorted[k], sorted[i]);
    }
  }

  /**
   The answer is no longer than asked exactly when at least one chunk is asked for, or none is and none
   is usable.  Only a direct call can ask for fewer than one: `search` slices the answer again.
   */
  lemma NoMoreThanAskedIff(cs: seq<Candidate>, topK: int, rrfK: nat, today: int)
    ensures |FilterSortTake(cs, topK, rrfK, today)| <= topK <==>
            topK >= 1 || (topK == 0 && forall c | c in cs :: !Showable(c.payload, today))
  {
    SomeAnswerIff(cs, topK, rrfK, today);
  }

  lemma SomeAnswerIff(cs: seq<Candidate>, topK: int, rrfK: nat, today: int)
    ensures |FilterSortTake(cs, topK, rrfK, today)| <= Max(1, topK)
    ensures FilterSortTake(cs, topK, rrfK, today) == [] <==> forall c | c in cs :: !Showable(c.payload, today)
  {
    HigherScoreIsWeakOrder(rrfK);
    SortSorts(HigherScore(rrfK), Filter((c: Candidate) => Usable(c, today), cs));
    NoneKeptIff(cs, today);
  }

  lemma NoneKeptIff(cs: seq<Candidate>, today: int)
    ensures Filter((c: Candidate) => Usable(c, today), cs) == [] <==> forall c | c in cs :: !Showable(c.payload, today)
  {
    var kept := Filter((c: Candidate) => Usable(c, today), cs);
    FilterIsIn((c: Candidate) => Usable(c, today), cs);
    forall c | c in cs ensures Showable(c.payload, today) <==> c in kept {
      UsableIsShowable(c, today);
    }
    if kept != [] {
      assert kept[0] in kept && kept[0] in cs;
    }
  }

  /** Two ranks within rrf_k + 1 weigh at least as much as any single one. */
  lemma AgreementBeatsOneList(both: Candidate, one: Candidate, rrfK: nat)
    requires both.vectorRank.Some? && both.sparseRank.Some?
    requires both.vectorRank.value <= rrfK + 1 && both.sparseRank.value <= rrfK + 1
    requires one.vectorRank.None? || one.sparseRank.None?
    ensures FusionScore(both, rrfK) >= FusionScore(one, rrfK)
  {
    var half := 1.0 / (2 * rrfK + 2) as real;
    Reciprocal(rrfK + both.vectorRank.value + 1, 2 * rrfK + 2);
    Reciprocal(rrfK + both.sparseRank.value + 1, 2 * rrfK + 2);
    if one.vectorRank.Some? {
      Reciprocal(rrfK + 1, rrfK + one.vectorRank.value + 1);
    }
    if one.sparseRank.Some? {
      Reciprocal(rrfK + 1, rrfK + one.sparseRank.value + 1);
    }
    assert half + half == 1.0 / (rrfK + 1) as real by { TwoHalves(rrfK + 1); }
  }

  lemma Reciprocal(a: nat, b: nat)
    requires 0 < a <= b
    ensures 1.0 / a as real >= 1.0 / b as real
  {
    var x, y := a as real, b as real;
    assert 1.0 / x - 1.0 / y == (y - x) / (x * y);
  }

  lemma TwoHalves(n: nat)
    requires n > 0
    ensures 1.0 / (2 * n) as real + 1.0 / (2 * n) as real == 1.0 / n as real
  {
  }
}
