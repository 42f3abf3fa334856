/**
 Standard versions: `app/services/lifecycle_manager.py` and the lifecycle part of
 `_ingest_historical_with_blocks` in `app/services/expert_library.py`.

 An ingest detects at most one standard code and year, checks it against the active documents, may
 deprecate older ones, and inserts a document with its chunks.  Ingests run one at a time to completion.
 */
module StandardLifecycle {
  import opened Common

  datatype Status = Active | Deprecated

  /** Detected codes are not empty, and years are those of the pattern 19xx or 20xx. */
  type Code = s: string | s != "" witness "GB50052"
  type Year = y: int | 1900 <= y <= 2099 witness 2009

  datatype Doc = Doc(code: Option<Code>, year: Option<Year>, status: Status)

  /** A chunk row, by the number of its document. */
  datatype ChunkRow = ChunkRow(doc: nat, status: Status)

  datatype Library = Library(docs: seq<Doc>, chunks: seq<ChunkRow>)

  /** What an upload is detected to be, and how many chunks it yields. */
  datatype Upload = Upload(code: Option<Code>, year: Option<Year>, chunkCount: nat)

  predicate Versioned(code: Option<Code>, year: Option<Year>) {
    code.Some? && year.Some?
  }

  /** An active document of the code, of a known year. */
  predicate Rival(d: Doc, code: Code) {
    d.code == Some(code) && d.status.Active? && d.year.Some?
  }

  /** `validate_standard_version`: no active version is newer. */
  predicate IsLatest(docs: seq<Doc>, code: Code, year: Year) {
    forall d | d in docs && Rival(d, code) :: d.year.value <= year
  }

  predicate Outdated(d: Doc, code: Code, year: Year) {
    Rival(d, code) && d.year.value < year
  }

  class ExpertLibrary {
    const autoDeprecate: bool
    var docs: seq<Doc>
    var chunks: seq<ChunkRow>

    constructor (autoDeprecate: bool)
      ensures this.autoDeprecate == autoDeprecate && docs == [] && chunks == []
    {
      this.autoDeprecate, docs, chunks := autoDeprecate, [], [];
    }

    function Contents(): Library
      reads this
    {
      Library(docs, chunks)
    }

    method ValidateVersion(code: Code, year: Year) returns (isLatest: bool)
      ensures isLatest == IsLatest(docs, code, year)
      ensures isLatest <==> forall d | d in docs && d.code == Some(code) && d.status.Active? && d.year.Some? :: d.year.value <= year
    {
      isLatest := true;
      var i := 0;
      while i < |docs|
        invariant i <= |docs|
        invariant isLatest == IsLatest(docs[..i], code, year)
      {
        assert docs[..i + 1] == docs[..i] + [docs[i]];
        if Rival(docs[i], code) && docs[i].year.value > year {
          isLatest := false;
        }
        i := i + 1;
      }
      assert docs[..i] == docs;
    }

    /** `auto_deprecate_old_versions`: the documents first, then the chunks of those documents. */
    method AutoDeprecate(code: Code, year: Year) returns (count: nat)
      modifies this`docs, this`chunks
      ensures Contents() == Deprecate(old(Contents()), code, year)
      ensures count == |set i | 0 <= i < |old(docs)| && Outdated(old(docs)[i], code, year)|
      ensures forall i | 0 <= i < |old(docs)| :: |docs| == |old(docs)| && docs[i] ==
                var d := old(docs)[i];
                if d.code == Some(code) && d.status == Active && d.year.Some? && d.year.value < year then d.(status := Deprecated) else d
    {
      var oldDocs := set i | 0 <= i < |docs| && Outdated(docs[i], code, year);
      count := |oldDocs|;
      if count == 0 {
        NothingOutdated(Contents(), code, year);
        return;
      }
      docs := seq(|docs|, i requires 0 <= i < |docs| reads this => if i in oldDocs then docs[i].(status := Deprecated) else docs[i]);
      chunks := seq(|chunks|, i requires 0 <= i < |chunks| reads this =>
                  if chunks[i].doc in oldDocs then chunks[i].(status := Deprecated) else chunks[i]);
    }

    method Ingest(u: Upload)
      modifies this`docs, this`chunks
      ensures Contents() == AfterIngest(old(Contents()), autoDeprecate, u)
    {
      var status := Active;
      if Versioned(u.code, u.year) {
        var isLatest := ValidateVersion(u.code.value, u.year.value);
        if !isLatest {
          status := Deprecated;
        } else if autoDeprecate {
          var count := AutoDeprecate(u.code.value, u.year.value);
        }
      }
      var number := |docs|;
      ghost var before := Contents();
      docs := docs + [Doc(u.code, u.year, status)];
      chunks := chunks + seq(u.chunkCount, _ => ChunkRow(number, status));
      assert Contents() == Insert(before, u, status);
    }
  }

  function Deprecate(l: Library, code: Code, year: Year): Library {
    Library(seq(|l.docs|, i requires 0 <= i < |l.docs| =>
              if Outdated(l.docs[i], code, year) then l.docs[i].(status := Deprecated) else l.docs[i]),
            seq(|l.chunks|, i requires 0 <= i < |l.chunks| =>
              var c := l.chunks[i];
              if c.doc < |l.docs| && Outdated(l.docs[c.doc], code, year) then c.(status := Deprecated) else c))
  }

  lemma NothingOutdated(l: Library, code: Code, year: Year)
    requires |set i | 0 <= i < |l.docs| && Outdated(l.docs[i], code, year)| == 0
    ensures Deprecate(l, code, year) == l
  {
    var outdated := set i | 0 <= i < |l.docs| && Outdated(l.docs[i], code, year);
    assert outdated == {};
    forall i | 0 <= i < |l.docs| ensures !Outdated(l.docs[i], code, year) {
      assert i !in outdated;
    }
    assert Deprecate(l, code, year).docs == l.docs;
    assert Deprecate(l, code, year).chunks == l.chunks;
  }

  function Insert(l: Library, u: Upload, status: Status): Library {
    Library(l.docs + [Doc(u.code, u.year, status)], l.chunks + seq(u.chunkCount, _ => ChunkRow(|l.docs|, status)))
  }

  function AfterIngest(l: Library, autoDeprecate: bool, u: Upload): Library {
    if !Versioned(u.code, u.year) then Insert(l, u, Active)
    else if !IsLatest(l.docs, u.code.value, u.year.value) then Insert(l, u, Deprecated)
    else Insert(if autoDeprecate then Deprecate(l, u.code.value, u.year.value) else l, u, Active)
  }

  /** The library after uploads, the last one last. */
  function AfterAll(uploads: seq<Upload>): Library {
    if uploads == [] then Library([], [])
    else AfterIngest(AfterAll(uploads[..|uploads| - 1]), true, uploads[|uploads| - 1])
  }

  // ------------------------------------------------------------------ what the library ends as

  /** No upload of the same code has a greater year. */
  ghost predicate Newest(uploads: seq<Upload>, code: Code, year: Year) {
    forall u | u in uploads && Versioned(u.code, u.year) && u.code.value == code :: u.year.value <= year
  }

  /** What a document's status must be, whatever came before and after it. */
  ghost function Settled(uploads: seq<Upload>, u: Upload): Status {
    if Versioned(u.code, u.year) && !Newest(uploads, u.code.value, u.year.value) then Deprecated else Active
  }

  /** Documents in upload order with settled statuses, and every chunk with its document's status. */
  ghost predicate IsSettled(uploads: seq<Upload>, l: Library) {
    && |l.docs| == |uploads|
    && (forall i | 0 <= i < |uploads| :: l.docs[i] == SettledDoc(uploads, uploads[i]))
    && ChunksAgree(l)
  }

  ghost function SettledDoc(uploads: seq<Upload>, u: Upload): Doc {
    Doc(u.code, u.year, Settled(uploads, u))
  }

  ghost predicate ChunksAgree(l: Library) {
    forall c | c in l.chunks :: c.doc < |l.docs| && c.status == l.docs[c.doc].status
  }

  lemma {:induction false} NewestExists(uploads: seq<Upload>, code: Code) returns (newest: int)
    ensures -1 <= newest < |uploads|
    ensures newest == -1 ==> forall u | u in uploads :: u.code != Some(code) || u.year.None?
    ensures newest >= 0 ==> var u := uploads[newest];
              u.code == Some(code) && u.year.Some? && Newest(uploads, code, u.year.value)
    decreases |uploads|
  {
    if uploads == [] {
      return -1;
    }
    var k := |uploads| - 1;
    var last := uploads[k];
    newest := NewestExists(uploads[..k], code);
    assert uploads == uploads[..k] + [last];
    if last.code == Some(code) && last.year.Some? && (newest == -1 || last.year.value > uploads[newest].year.value) {
      newest := k;
    }
  }

  /** The check against active documents is a check against everything ever ingested. */
  lemma LatestIffNewest(uploads: seq<Upload>, l: Library, code: Code, year: Year)
    requires IsSettled(uploads, l)
    ensures IsLatest(l.docs, code, year) <==> Newest(uploads, code, year)
  {
    var top := NewestExists(uploads, code);
    if top >= 0 {
      assert l.docs[top] == SettledDoc(uploads, uploads[top]) && l.docs[top] in l.docs;
    }
    forall d | d in l.docs && Rival(d, code) ensures exists u :: u in uploads && u.code == d.code && u.year == d.year {
      var i :| 0 <= i < |l.docs| && l.docs[i] == d;
      assert uploads[i] in uploads;
    }
  }

  /** How one more upload changes what the earlier ones must be. */
  lemma SettledAfterOneMore(uploads: seq<Upload>, u: Upload, x: Upload)
    requires x in uploads
    ensures Settled(uploads + [u], x) ==
            if Versioned(x.code, x.year) && Versioned(u.code, u.year) && u.code == x.code && u.year.value > x.year.value
            then Deprecated else Settled(uploads, x)
  {
    var all := uploads + [u];
    assert forall y :: y in all <==> y in uploads || y == u;
  }

  lemma SettledLast(uploads: seq<Upload>, u: Upload)
    ensures Settled(uploads + [u], u) ==
            if Versioned(u.code, u.year) && !Newest(uploads, u.code.value, u.year.value) then Deprecated else Active
  {
    var all := uploads + [u];
    assert forall y :: y in all <==> y in uploads || y == u;
  }

  /** An earlier upload's document after one more ingest. */
  lemma EarlierDocSettles(uploads: seq<Upload>, l: Library, u: Upload, i: nat)
    requires IsSettled(uploads, l) && i < |uploads|
    ensures AfterIngest(l, true, u).docs[i] == SettledDoc(uploads + [u], uploads[i])
  {
    var x := uploads[i];
    SettledAfterOneMore(uploads, u, x);
    if Versioned(u.code, u.year) {
      LatestIffNewest(uploads, l, u.code.value, u.year.value);
      if !IsLatest(l.docs, u.code.value, u.year.value) {
        var y :| y in uploads && Versioned(y.code, y.year) && y.code == u.code && y.year.value > u.year.value;
      }
    }
  }

  lemma IngestSettles(uploads: seq<Upload>, l: Library, u: Upload)
    requires IsSettled(uploads, l)
    ensures IsSettled(uploads + [u], AfterIngest(l, true, u))
  {
    var l' := AfterIngest(l, true, u);
    SettledLast(uploads, u);
    if Versioned(u.code, u.year) {
      LatestIffNewest(uploads, l, u.code.value, u.year.value);
      DeprecateKeepsChunksInStep(l, u.code.value, u.year.value);
    }
    forall i | 0 <= i < |uploads| + 1 ensures l'.docs[i] == SettledDoc(uploads + [u], (uploads + [u])[i]) {
      if i < |uploads| {
        EarlierDocSettles(uploads, l, u, i);
      }
    }
  }

  lemma DeprecateKeepsChunksInStep(l: Library, code: Code, year: Year)
    requires ChunksAgree(l)
    ensures ChunksAgree(Deprecate(l, code, year))
  {
    var l' := Deprecate(l, code, year);
    forall c | c in l'.chunks ensures c.doc < |l'.docs| && c.status == l'.docs[c.doc].status {
      var i :| 0 <= i < |l'.chunks| && l'.chunks[i] == c;
      assert l.chunks[i] in l.chunks;
    }
  }

  lemma {:induction false} AfterAllIsSettled(uploads: seq<Upload>)
    ensures IsSettled(uploads, AfterAll(uploads))
    decreases |uploads|
  {
    if uploads != [] {
      var k := |uploads| - 1;
      AfterAllIsSettled(uploads[..k]);
      IngestSettles(uploads[..k], AfterAll(uploads[..k]), uploads[k]);
      assert uploads[..k] + [uploads[k]] == uploads;
    }
  }

  /** With auto-deprecation on, a versioned document is active exactly when no newer year of its code was ever ingested. */
  lemma ActiveVersionsAreTheNewest(uploads: seq<Upload>, i: nat)
    requires i < |uploads| && Versioned(uploads[i].code, uploads[i].year)
    ensures var l := AfterAll(uploads);
            && |l.docs| == |uploads| && l.docs[i].code == uploads[i].code && l.docs[i].year == uploads[i].year
            && (l.docs[i].status.Active? <==> Newest(uploads, uploads[i].code.value, uploads[i].year.value))
            && (forall c | c in l.chunks && c.doc == i :: c.status == l.docs[i].status)
  {
    AfterAllIsSettled(uploads);
  }

  function DocNumbers(chunks: seq<ChunkRow>): (numbers: seq<nat>)
    ensures |numbers| == |chunks| && forall k | 0 <= k < |numbers| :: numbers[k] == chunks[k].doc
  {
    seq(|chunks|, k requires 0 <= k < |chunks| => chunks[k].doc)
  }

  lemma IngestAddsChunks(l: Library, autoDeprecate: bool, u: Upload)
    ensures DocNumbers(AfterIngest(l, autoDeprecate, u).chunks) == DocNumbers(l.chunks) + seq(u.chunkCount, _ => |l.docs|)
  {
  }

  lemma {:induction false} Repeated(n: nat, x: nat, i: nat)
    ensures multiset(seq(n, _ => x))[i] == if i == x then n else 0
  {
    if n > 0 {
      Repeated(n - 1, x, i);
      assert seq(n, _ => x) == seq(n - 1, _ => x) + [x];
    }
  }

  lemma CountInBoth(a: seq<nat>, b: seq<nat>, i: nat)
    ensures multiset(a + b)[i] == multiset(a)[i] + multiset(b)[i]
  {
  }

  lemma NumbersAreBelow(l: Library)
    requires ChunksAgree(l)
    ensures |l.docs| !in DocNumbers(l.chunks)
  {
    forall n | 0 <= n < |l.chunks| ensures DocNumbers(l.chunks)[n] < |l.docs| {
      assert l.chunks[n] in l.chunks;
    }
  }

  /** Every upload has as many chunk rows as it has chunks. */
  lemma {:induction false} ChunksOfEveryUpload(uploads: seq<Upload>, i: nat)
    requires i < |uploads|
    ensures multiset(DocNumbers(AfterAll(uploads).chunks))[i] == uploads[i].chunkCount
    decreases |uploads|
  {
    var k := |uploads| - 1;
    var l, n := AfterAll(uploads[..k]), uploads[k].chunkCount;
    AfterAllIsSettled(uploads[..k]);
    IngestAddsChunks(l, true, uploads[k]);
    Repeated(n, k, i);
    CountInBoth(DocNumbers(l.chunks), seq(n, _ => |l.docs|), i);
    if i < k {
      ChunksOfEveryUpload(uploads[..k], i);
    } else {
      NumbersAreBelow(l);
    }
  }

  /** Without auto-deprecation nothing already in the library changes. */
  lemma NothingChangesWithoutAutoDeprecation(l: Library, u: Upload)
    ensures AfterIngest(l, false, u).docs[..|l.docs|] == l.docs && AfterIngest(l, false, u).chunks[..|l.chunks|] == l.chunks
  {
  }

  function Map(f: Upload -> Doc, uploads: seq<Upload>): (docs: seq<Doc>)
    ensures |docs| == |uploads| && forall i | 0 <= i < |docs| :: docs[i] == f(uploads[i])
  {
    seq(|uploads|, i requires 0 <= i < |uploads| => f(uploads[i]))
  }

  function Without<T>(s: seq<T>, k: nat): (r: seq<T>)
    requires k < |s|
    ensures |r| == |s| - 1
  {
    s[..k] + s[k + 1..]
  }

  lemma TakenOut<T>(s: seq<T>, k: nat)
    requires k < |s|
    ensures multiset(s) == multiset{s[k]} + multiset(Without(s, k))
  {
    assert s == s[..k] + ([s[k]] + s[k + 1..]);
  }

  lemma MapWithOneTakenOut(f: Upload -> Doc, s: seq<Upload>, k: nat)
    requires k < |s|
    ensures Map(f, Without(s, k)) == Without(Map(f, s), k)
  {
  }

  lemma {:induction false} MapOfPermutation(f: Upload -> Doc, a: seq<Upload>, b: seq<Upload>)
    requires multiset(a) == multiset(b)
    ensures multiset(Map(f, a)) == multiset(Map(f, b))
    decreases |a|
  {
    if a == [] {
      assert |multiset(b)| == 0;
    } else {
      assert a[0] in multiset(b);
      var k :| 0 <= k < |b| && b[k] == a[0];
      TakenOut(a, 0);
      TakenOut(b, k);
      assert multiset(Without(a, 0)) == multiset(a) - multiset{a[0]};
      MapOfPermutation(f, Without(a, 0), Without(b, k));
      MapWithOneTakenOut(f, a, 0);
      MapWithOneTakenOut(f, b, k);
      TakenOut(Map(f, a), 0);
      TakenOut(Map(f, b), k);
    }
  }

  lemma SettledIgnoresOrder(a: seq<Upload>, b: seq<Upload>, u: Upload)
    requires multiset(a) == multiset(b)
    ensures SettledDoc(a, u) == SettledDoc(b, u)
  {
    forall x ensures x in a <==> x in b {
      assert x in a <==> x in multiset(a);
      assert x in b <==> x in multiset(b);
    }
  }

  lemma AllDocsAreSettled(uploads: seq<Upload>, f: Upload -> Doc)
    requires forall i | 0 <= i < |uploads| :: f(uploads[i]) == SettledDoc(uploads, uploads[i])
    ensures AfterAll(uploads).docs == Map(f, uploads)
  {
    AfterAllIsSettled(uploads);
  }

  /** Whatever the ingest order, the same documents end with the same statuses. */
  lemma OrderDoesNotMatter(a: seq<Upload>, b: seq<Upload>)
    requires multiset(a) == multiset(b)
    ensures multiset(AfterAll(a).docs) == multiset(AfterAll(b).docs)
  {
    ghost var f := (u: Upload) => SettledDoc(a, u);
    AllDocsAreSettled(a, f);
    forall i | 0 <= i < |b| ensures f(b[i]) == SettledDoc(b, b[i]) {
      SettledIgnoresOrder(a, b, b[i]);
    }
    AllDocsAreSettled(b, f);
    MapOfPermutation(f, a, b);
  }
}
