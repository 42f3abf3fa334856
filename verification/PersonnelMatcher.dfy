/**
 Team matching: `app/services/personnel_matcher.py`.

 A role requirement becomes a `Slot` with the candidates its query returned.  A
 `Choice` says, slot by slot, which candidate is taken (by position) or that the
 slot stays empty.  The search object `TeamSearch` mutates its used-asset set and
 its team and undoes both; what it computes is stated on choices.
 */
module PersonnelMatcher {
  import opened Common

  type AssetId = string

  /** `match_score` is read with a default of 0.0 when absent. */
  datatype Candidate = Candidate(assetId: AssetId, assetName: string, ownershipRole: string,
                                 matchScore: Option<real>, evidenceRefs: seq<string>)

  datatype Slot = Slot(role: string, candidates: seq<Candidate>)

  datatype Member = Member(role: string, assetId: AssetId, assetName: string, ownershipRole: string,
                           score: real, evidenceRefs: seq<string>)

  datatype Best = Best(filledCount: int, totalScore: real, team: seq<Member>)

  type Choice = seq<Option<nat>>

  // ---------------------------------------------------------------- assignments

  function ScoreOf(c: Candidate): real {
    if c.matchScore.Some? then c.matchScore.value else 0.0
  }

  function MemberFor(slot: Slot, c: Candidate): Member {
    Member(slot.role, c.assetId, c.assetName, c.ownershipRole, ScoreOf(c), c.evidenceRefs)
  }

  /** Slot `i` is given candidate number `choice[i].value` of its own list. */
  predicate Filled(slots: seq<Slot>, choice: Choice, i: nat) {
    i < |slots| && i < |choice| && choice[i].Some? && choice[i].value < |slots[i].candidates|
  }

  function AssetAt(slots: seq<Slot>, choice: Choice, i: nat): AssetId
    requires Filled(slots, choice, i)
  {
    slots[i].candidates[choice[i].value].assetId
  }

  /** Any way to give distinct assets outside `used` to some of the slots. */
  ghost predicate IsAssignment(slots: seq<Slot>, used: set<AssetId>, choice: Choice) {
    && |choice| == |slots|
    && (forall i: nat | i < |slots| && choice[i].Some? ::
          Filled(slots, choice, i) && AssetAt(slots, choice, i) !in used)
    && (forall i: nat, k: nat | i < k && Filled(slots, choice, i) && Filled(slots, choice, k) ::
          AssetAt(slots, choice, i) != AssetAt(slots, choice, k))
  }

  /** Asset `a` was taken before the search reached slot `i`. */
  ghost predicate TakenBefore(slots: seq<Slot>, used: set<AssetId>, choice: Choice, i: nat, a: AssetId) {
    a in used || exists k: nat | k < i :: Filled(slots, choice, k) && AssetAt(slots, choice, k) == a
  }

  /** An assignment that leaves a slot empty only when every candidate of it is already taken. */
  ghost predicate Admissible(slots: seq<Slot>, used: set<AssetId>, choice: Choice) {
    && IsAssignment(slots, used, choice)
    && (forall i: nat, c | i < |slots| && choice[i].None? && c in slots[i].candidates ::
          TakenBefore(slots, used, choice, i, c.assetId))
  }

  ghost predicate Complete(slots: seq<Slot>, choice: Choice) {
    forall i: nat | i < |slots| :: Filled(slots, choice, i)
  }

  function TeamOf(slots: seq<Slot>, choice: Choice): (team: seq<Member>) {
    if slots == [] || choice == [] then []
    else
      (if Filled(slots, choice, 0) then [MemberFor(slots[0], slots[0].candidates[choice[0].value])] else [])
      + TeamOf(slots[1..], choice[1..])
  }

  function TotalScore(team: seq<Member>): real {
    if team == [] then 0.0 else team[0].score + TotalScore(team[1..])
  }

  /** The sum of the match scores of the candidates taken, an absent score counting nothing. */
  function MatchSum(slots: seq<Slot>, choice: Choice): real {
    if slots == [] || choice == [] then 0.0
    else
      (if choice[0].Some? && choice[0].value < |slots[0].candidates| && slots[0].candidates[choice[0].value].matchScore.Some?
       then slots[0].candidates[choice[0].value].matchScore.value else 0.0)
      + MatchSum(slots[1..], choice[1..])
  }

  /** `team` has, slot by slot, one member for each candidate taken, with the slot's role and the candidate's data. */
  predicate IsTeamFor(slots: seq<Slot>, choice: Choice, team: seq<Member>) {
    if slots == [] || choice == [] then team == []
    else if choice[0].None? || choice[0].value >= |slots[0].candidates| then IsTeamFor(slots[1..], choice[1..], team)
    else
      var c := slots[0].candidates[choice[0].value];
      && team != []
      && team[0].role == slots[0].role && team[0].assetId == c.assetId && team[0].assetName == c.assetName
      && team[0].ownershipRole == c.ownershipRole && team[0].evidenceRefs == c.evidenceRefs
      && (c.matchScore.Some? ==> team[0].score == c.matchScore.value) && (c.matchScore.None? ==> team[0].score == 0.0)
      && IsTeamFor(slots[1..], choice[1..], team[1..])
  }

  lemma {:induction false} TeamHoldsTheCandidates(slots: seq<Slot>, choice: Choice)
    ensures IsTeamFor(slots, choice, TeamOf(slots, choice))
    ensures TotalScore(TeamOf(slots, choice)) == MatchSum(slots, choice)
    decreases |slots|
  {
    if slots != [] && choice != [] {
      var tail := TeamOf(slots[1..], choice[1..]);
      TeamHoldsTheCandidates(slots[1..], choice[1..]);
      if Filled(slots, choice, 0) {
        var m := MemberFor(slots[0], slots[0].candidates[choice[0].value]);
        assert TeamOf(slots, choice) == [m] + tail && ([m] + tail)[1..] == tail;
      } else {
        assert TeamOf(slots, choice) == tail;
      }
    }
  }

  lemma {:induction false} TotalScoreAppend(a: seq<Member>, b: seq<Member>)
    ensures TotalScore(a + b) == TotalScore(a) + TotalScore(b)
  {
    if a == [] {
      assert a + b == b;
    } else {
      assert (a + b)[1..] == a[1..] + b;
      TotalScoreAppend(a[1..], b);
    }
  }

  // ------------------------------------------------------- the search, on values

  /** The comparison a finished leaf goes through: fuller first, then higher score, strictly. */
  predicate Better(a: Best, b: Best) {
    a.filledCount > b.filledCount || (a.filledCount == b.filledCount && a.totalScore > b.totalScore)
  }

  function Leaf(team: seq<Member>, score: real): Best {
    Best(|team|, score, team)
  }

  function Prepend(o: Option<nat>, choices: seq<Choice>): (r: seq<Choice>)
    ensures |r| == |choices| && forall k | 0 <= k < |r| :: r[k] == [o] + choices[k]
  {
    seq(|choices|, k requires 0 <= k < |choices| => [o] + choices[k])
  }

  predicate Exhausted(slot: Slot, used: set<AssetId>) {
    forall c | c in slot.candidates :: c.assetId in used
  }

  /** The leaves below a node of the search tree, in the order the search visits them. */
  function Completions(slots: seq<Slot>, used: set<AssetId>): seq<Choice>
    decreases |slots|, 1, 0
  {
    if slots == [] then [[]]
    else if Exhausted(slots[0], used) then Prepend(None, Completions(slots[1..], used))
    else Branches(slots, used, 0)
  }

  function Branches(slots: seq<Slot>, used: set<AssetId>, from: nat): seq<Choice>
    requires slots != [] && from <= |slots[0].candidates|
    decreases |slots|, 0, |slots[0].candidates| - from
  {
    if from == |slots[0].candidates| then []
    else
      var a := slots[0].candidates[from].assetId;
      (if a in used then [] else Prepend(Some(from), Completions(slots[1..], used + {a})))
      + Branches(slots, used, from + 1)
  }

  /** Offers one leaf to `best`. */
  function Consider(best: Best, slots: seq<Slot>, team: seq<Member>, score: real, choice: Choice): Best {
    var found := TeamOf(slots, choice);
    var leaf := Leaf(team + found, score + TotalScore(found));
    if Better(leaf, best) then leaf else best
  }

  /** Offers the leaves `choices`, below a node reached with `team` and `score`, to `best`. */
  function Scan(best: Best, slots: seq<Slot>, team: seq<Member>, score: real, choices: seq<Choice>): Best
    decreases |choices|
  {
    if choices == [] then best
    else Scan(Consider(best, slots, team, score, choices[0]), slots, team, score, choices[1..])
  }

  lemma {:induction false} CompletionsShape(slots: seq<Slot>, used: set<AssetId>, c: Choice)
    requires c in Completions(slots, used)
    ensures |c| == |slots|
    decreases |slots|, 1, 0
  {
    if slots != [] {
      if Exhausted(slots[0], used) {
        InPrepend(None, Completions(slots[1..], used), c);
        CompletionsShape(slots[1..], used, c[1..]);
      } else {
        BranchesShape(slots, used, 0, c);
      }
    }
  }

  lemma {:induction false} BranchesShape(slots: seq<Slot>, used: set<AssetId>, from: nat, c: Choice)
    requires slots != [] && from <= |slots[0].candidates| && c in Branches(slots, used, from)
    ensures |c| == |slots|
    decreases |slots|, 0, |slots[0].candidates| - from
  {
    BranchesStep(slots, used, from, c);
    if c in Branches(slots, used, from + 1) {
      BranchesShape(slots, used, from + 1, c);
    } else {
      CompletionsShape(slots[1..], used + {slots[0].candidates[from].assetId}, c[1..]);
    }
  }

  lemma InPrepend(o: Option<nat>, choices: seq<Choice>, c: Choice)
    ensures c in Prepend(o, choices) <==> c != [] && c[0] == o && c[1..] in choices
  {
    if c != [] && c[0] == o && c[1..] in choices {
      var k :| 0 <= k < |choices| && choices[k] == c[1..];
      assert c == [o] + c[1..];
      assert Prepend(o, choices)[k] == c;
    }
  }

  /** A leaf takes the candidate at `from`, or one behind it. */
  lemma BranchesStep(slots: seq<Slot>, used: set<AssetId>, from: nat, c: Choice)
    requires slots != [] && from < |slots[0].candidates|
    ensures var a := slots[0].candidates[from].assetId;
            c in Branches(slots, used, from) <==>
              || (a !in used && c != [] && c[0] == Some(from) && c[1..] in Completions(slots[1..], used + {a}))
              || c in Branches(slots, used, from + 1)
  {
    var a := slots[0].candidates[from].assetId;
    var first := if a in used then [] else Prepend(Some(from), Completions(slots[1..], used + {a}));
    InConcat(first, Branches(slots, used, from + 1), c);
    InPrepend(Some(from), Completions(slots[1..], used + {a}), c);
  }

  lemma {:induction false} ScanAppend(best: Best, slots: seq<Slot>, team: seq<Member>, score: real,
                                      a: seq<Choice>, b: seq<Choice>)
    ensures Scan(best, slots, team, score, a + b) == Scan(Scan(best, slots, team, score, a), slots, team, score, b)
    decreases |a|
  {
    if a == [] {
      assert a + b == b;
    } else {
      assert (a + b)[1..] == a[1..] + b;
      ScanAppend(Consider(best, slots, team, score, a[0]), slots, team, score, a[1..], b);
    }
  }

  /** Scanning under a node after taking `o` is scanning its child with the member appended. */
  lemma {:induction false} ScanPrepend(best: Best, slots: seq<Slot>, team: seq<Member>, score: real,
                                       o: Option<nat>, choices: seq<Choice>)
    requires slots != []
    requires o.Some? ==> o.value < |slots[0].candidates|
    ensures Scan(best, slots, team, score, Prepend(o, choices))
         == if o.None? then Scan(best, slots[1..], team, score, choices)
            else var m := MemberFor(slots[0], slots[0].candidates[o.value]);
                 Scan(best, slots[1..], team + [m], score + m.score, choices)
    decreases |choices|
  {
    if choices != [] {
      assert Prepend(o, choices)[1..] == Prepend(o, choices[1..]);
      ConsiderPrepend(best, slots, team, score, o, choices[0]);
      ScanPrepend(Consider(best, slots, team, score, [o] + choices[0]), slots, team, score, o, choices[1..]);
    }
  }

  lemma ConsiderPrepend(best: Best, slots: seq<Slot>, team: seq<Member>, score: real, o: Option<nat>, choice: Choice)
    requires slots != []
    requires o.Some? ==> o.value < |slots[0].candidates|
    ensures Consider(best, slots, team, score, [o] + choice)
         == if o.None? then Consider(best, slots[1..], team, score, choice)
            else var m := MemberFor(slots[0], slots[0].candidates[o.value]);
                 Consider(best, slots[1..], team + [m], score + m.score, choice)
  {
    assert ([o] + choice)[1..] == choice;
    var tail := TeamOf(slots[1..], choice);
    if o.Some? {
      var m := MemberFor(slots[0], slots[0].candidates[o.value]);
      assert TeamOf(slots, [o] + choice) == [m] + tail;
      assert team + ([m] + tail) == (team + [m]) + tail;
      TotalScoreAppend([m], tail);
      assert TotalScore([m]) == m.score by { assert [m][1..] == []; }
    } else {
      assert TeamOf(slots, [o] + choice) == tail;
    }
  }

  // ------------------------------------------- what the leaves are, declaratively

  lemma ConsAssignment(slots: seq<Slot>, used: set<AssetId>, choice: Choice)
    requires slots != [] && |choice| == |slots|
    ensures IsAssignment(slots, used, choice) <==>
            if choice[0].None? then IsAssignment(slots[1..], used, choice[1..])
            else Filled(slots, choice, 0) && AssetAt(slots, choice, 0) !in used
                 && IsAssignment(slots[1..], used + {AssetAt(slots, choice, 0)}, choice[1..])
  {
    var s, c := slots[1..], choice[1..];
    assert forall i: nat :: Filled(s, c, i) <==> Filled(slots, choice, i + 1);
    assert forall i: nat | Filled(s, c, i) :: AssetAt(s, c, i) == AssetAt(slots, choice, i + 1);
    forall i: nat | 0 < i && Filled(slots, choice, i)
      ensures Filled(s, c, i - 1) && AssetAt(s, c, i - 1) == AssetAt(slots, choice, i)
    {
    }
    assert forall i: nat | i < |s| && c[i].Some? :: choice[i + 1].Some?;
    assert forall i: nat | 0 < i < |slots| && choice[i].Some? :: c[i - 1].Some?;
  }

  lemma ConsAdmissible(slots: seq<Slot>, used: set<AssetId>, choice: Choice)
    requires slots != [] && |choice| == |slots|
    ensures Admissible(slots, used, choice) <==>
            if choice[0].None? then Exhausted(slots[0], used) && Admissible(slots[1..], used, choice[1..])
            else Filled(slots, choice, 0) && AssetAt(slots, choice, 0) !in used
                 && Admissible(slots[1..], used + {AssetAt(slots, choice, 0)}, choice[1..])
  {
    ConsAssignment(slots, used, choice);
    if IsAssignment(slots, used, choice) {
      var s, c := slots[1..], choice[1..];
      var used' := if choice[0].None? then used else used + {AssetAt(slots, choice, 0)};
      forall i: nat, a: AssetId
        ensures TakenBefore(slots, used, choice, i + 1, a) <==> TakenBefore(s, used', c, i, a)
      {
        ConsTaken(slots, used, choice, i, a);
      }
      assert forall a :: TakenBefore(slots, used, choice, 0, a) <==> a in used;
      assert forall i: nat | 0 < i < |slots| :: choice[i] == c[i - 1] && slots[i] == s[i - 1];
      assert forall i: nat | i < |s| :: choice[i + 1] == c[i] && slots[i + 1] == s[i];
      if Admissible(slots, used, choice) {
        forall i: nat, x | i < |s| && c[i].None? && x in s[i].candidates
          ensures TakenBefore(s, used', c, i, x.assetId)
        {
          assert choice[i + 1].None? && x in slots[i + 1].candidates;
        }
      }
      if Admissible(s, used', c) && (choice[0].None? ==> Exhausted(slots[0], used)) {
        forall i: nat, x | i < |slots| && choice[i].None? && x in slots[i].candidates
          ensures TakenBefore(slots, used, choice, i, x.assetId)
        {
          if i > 0 {
            assert c[i - 1].None? && x in s[i - 1].candidates;
            assert TakenBefore(slots, used, choice, (i - 1) + 1, x.assetId);
          }
        }
      }
    }
  }

  lemma ConsTaken(slots: seq<Slot>, used: set<AssetId>, choice: Choice, i: nat, a: AssetId)
    requires slots != [] && |choice| == |slots| && (choice[0].Some? ==> Filled(slots, choice, 0))
    ensures TakenBefore(slots, used, choice, i + 1, a) <==>
            TakenBefore(slots[1..], if choice[0].None? then used else used + {AssetAt(slots, choice, 0)},
                        choice[1..], i, a)
  {
    var s, c := slots[1..], choice[1..];
    forall k: nat
      ensures Filled(s, c, k) <==> Filled(slots, choice, k + 1)
      ensures Filled(s, c, k) ==> AssetAt(s, c, k) == AssetAt(slots, choice, k + 1)
    {
    }
    if k: nat :| k < i + 1 && Filled(slots, choice, k) && AssetAt(slots, choice, k) == a {
      if k > 0 {
        assert Filled(s, c, k - 1) && AssetAt(s, c, k - 1) == a;
      }
    }
  }

  /** The search visits exactly the admissible assignments. */
  lemma {:induction false} CompletionsAreAdmissible(slots: seq<Slot>, used: set<AssetId>, c: Choice)
    ensures c in Completions(slots, used) <==> Admissible(slots, used, c)
    decreases |slots|
  {
    if c in Completions(slots, used) {
      CompletionsShape(slots, used, c);
    }
    if slots != [] && |c| == |slots| {
      ConsAdmissible(slots, used, c);
      if Exhausted(slots[0], used) {
        InPrepend(None, Completions(slots[1..], used), c);
        CompletionsAreAdmissible(slots[1..], used, c[1..]);
      } else {
        BranchMembers(slots, used, 0, c);
        if Filled(slots, c, 0) {
          CompletionsAreAdmissible(slots[1..], used + {AssetAt(slots, c, 0)}, c[1..]);
        }
      }
    }
  }

  /** A leaf that takes a free candidate of the first slot at `from` or behind it. */
  predicate TakesFrom(slots: seq<Slot>, used: set<AssetId>, from: nat, c: Choice) {
    && slots != [] && c != [] && Filled(slots, c, 0) && from <= c[0].value
    && AssetAt(slots, c, 0) !in used
    && c[1..] in Completions(slots[1..], used + {AssetAt(slots, c, 0)})
  }

  lemma TakesHereOrLater(slots: seq<Slot>, used: set<AssetId>, from: nat, c: Choice)
    requires slots != [] && from < |slots[0].candidates| && c != []
    ensures var a := slots[0].candidates[from].assetId;
            TakesFrom(slots, used, from, c) <==>
              || (a !in used && c[0] == Some(from) && c[1..] in Completions(slots[1..], used + {a}))
              || TakesFrom(slots, used, from + 1, c)
  {
    assert c[0] == Some(from) ==> AssetAt(slots, c, 0) == slots[0].candidates[from].assetId;
  }

  lemma BranchOrTakes(slots: seq<Slot>, used: set<AssetId>, from: nat, c: Choice)
    requires slots != [] && from < |slots[0].candidates| && c != []
    requires c in Branches(slots, used, from + 1) <==> TakesFrom(slots, used, from + 1, c)
    ensures c in Branches(slots, used, from) <==> TakesFrom(slots, used, from, c)
  {
    BranchesStep(slots, used, from, c);
    TakesHereOrLater(slots, used, from, c);
  }

  lemma {:induction false} BranchMembers(slots: seq<Slot>, used: set<AssetId>, from: nat, c: Choice)
    requires slots != [] && from <= |slots[0].candidates| && c != []
    ensures c in Branches(slots, used, from) <==> TakesFrom(slots, used, from, c)
    decreases |slots[0].candidates| - from
  {
    if from < |slots[0].candidates| {
      BranchMembers(slots, used, from + 1, c);
      BranchOrTakes(slots, used, from, c);
    }
  }

  // ------------------------------------------------------------ maximum matching

  function Size(choice: Choice): nat {
    if choice == [] then 0 else (if choice[0].Some? then 1 else 0) + Size(choice[1..])
  }

  lemma {:induction false} SizeVacate(choice: Choice, k: nat)
    requires k < |choice| && choice[k].Some?
    ensures Size(choice[k := None]) == Size(choice) - 1
  {
    if k > 0 {
      assert choice[k := None][1..] == choice[1..][k - 1 := None];
      SizeVacate(choice[1..], k - 1);
    } else {
      assert choice[0 := None][1..] == choice[1..];
    }
  }

  /**
   Exchange argument: whatever an assignment fills, some admissible assignment fills as much.
   Where the search would take a free candidate that the given assignment leaves alone, taking it
   costs at most the one later slot that held the same asset.
   */
  lemma {:induction false} Exchange(slots: seq<Slot>, used: set<AssetId>, given: Choice) returns (found: Choice)
    requires IsAssignment(slots, used, given)
    ensures Admissible(slots, used, found) && Size(found) >= Size(given)
    decreases |slots|
  {
    if slots == [] {
      return [];
    }
    ConsAssignment(slots, used, given);
    var s := slots[1..];
    if given[0].Some? {
      var a := AssetAt(slots, given, 0);
      var rest := Exchange(s, used + {a}, given[1..]);
      found := [given[0]] + rest;
      assert found[1..] == rest;
    } else if Exhausted(slots[0], used) {
      var rest := Exchange(s, used, given[1..]);
      found := [None] + rest;
      assert found[1..] == rest;
    } else {
      var j: nat :| j < |slots[0].candidates| && slots[0].candidates[j].assetId !in used;
      var a := slots[0].candidates[j].assetId;
      var tail := given[1..];
      if k: nat :| Filled(s, tail, k) && AssetAt(s, tail, k) == a {
        SizeVacate(tail, k);
        var vacated := tail[k := None];
        assert forall i: nat | Filled(s, vacated, i) :: Filled(s, tail, i) && AssetAt(s, vacated, i) == AssetAt(s, tail, i);
        tail := vacated;
      }
      assert IsAssignment(s, used + {a}, tail);
      var rest := Exchange(s, used + {a}, tail);
      found := [Some(j)] + rest;
      assert found[1..] == rest;
      assert Filled(slots, found, 0) && AssetAt(slots, found, 0) == a;
    }
    ConsAdmissible(slots, used, found);
  }

  lemma {:induction false} TeamSize(slots: seq<Slot>, used: set<AssetId>, choice: Choice)
    requires IsAssignment(slots, used, choice)
    ensures |TeamOf(slots, choice)| == Size(choice)
    ensures Complete(slots, choice) <==> Size(choice) == |slots|
    ensures Size(choice) <= |slots|
    decreases |slots|
  {
    if slots != [] {
      ConsAssignment(slots, used, choice);
      TeamSize(slots[1..], if choice[0].None? then used else used + {AssetAt(slots, choice, 0)}, choice[1..]);
      var s, c := slots[1..], choice[1..];
      assert forall i: nat :: Filled(s, c, i) <==> Filled(slots, choice, i + 1);
      if Complete(s, c) && choice[0].Some? {
        forall i: nat | i < |slots| ensures Filled(slots, choice, i) {
          assert i > 0 ==> Filled(s, c, i - 1);
        }
      }
      if Complete(slots, choice) {
        assert Filled(slots, choice, 0);
      }
    }
  }

  // ------------------------------------------------------- first best leaf in order

  /** At the first slot where they differ, `a` takes the earlier candidate. */
  ghost predicate Earlier(a: Choice, b: Choice) {
    |a| == |b| && exists k: nat | k < |a| ::
      a[..k] == b[..k] && a[k].Some? && b[k].Some? && a[k].value < b[k].value
  }

  lemma EarlierCons(o: Option<nat>, a: Choice, b: Choice)
    requires Earlier(a, b)
    ensures Earlier([o] + a, [o] + b)
  {
    var k: nat :| k < |a| && a[..k] == b[..k] && a[k].Some? && b[k].Some? && a[k].value < b[k].value;
    var x, y := [o] + a, [o] + b;
    assert x[..k + 1] == [o] + a[..k] && y[..k + 1] == [o] + b[..k];
    assert x[k + 1] == a[k] && y[k + 1] == b[k];
  }

  ghost predicate InOrder(choices: seq<Choice>) {
    forall i, k | 0 <= i < k < |choices| :: Earlier(choices[i], choices[k])
  }

  lemma {:induction false} CompletionsInOrder(slots: seq<Slot>, used: set<AssetId>)
    ensures InOrder(Completions(slots, used))
    decreases |slots|, 1, 0
  {
    if slots != [] {
      if Exhausted(slots[0], used) {
        CompletionsInOrder(slots[1..], used);
        PrependInOrder(None, Completions(slots[1..], used));
      } else {
        BranchesInOrder(slots, used, 0);
      }
    }
  }

  lemma PrependInOrder(o: Option<nat>, choices: seq<Choice>)
    requires InOrder(choices)
    ensures InOrder(Prepend(o, choices))
  {
    forall i, k | 0 <= i < k < |choices| ensures Earlier(Prepend(o, choices)[i], Prepend(o, choices)[k]) {
      EarlierCons(o, choices[i], choices[k]);
    }
  }

  lemma EarlierAtHead(a: Choice, b: Choice)
    requires |a| == |b| > 0 && a[0].Some? && b[0].Some? && a[0].value < b[0].value
    ensures Earlier(a, b)
  {
    assert a[..0] == b[..0];
  }

  lemma InOrderAppend(a: seq<Choice>, b: seq<Choice>)
    requires InOrder(a) && InOrder(b)
    requires forall i, k | 0 <= i < |a| && 0 <= k < |b| :: Earlier(a[i], b[k])
    ensures InOrder(a + b)
  {
  }

  lemma {:induction false} BranchesInOrder(slots: seq<Slot>, used: set<AssetId>, from: nat)
    requires slots != [] && from <= |slots[0].candidates|
    ensures InOrder(Branches(slots, used, from))
    decreases |slots|, 0, |slots[0].candidates| - from
  {
    if from < |slots[0].candidates| {
      var a := slots[0].candidates[from].assetId;
      var later := Branches(slots, used, from + 1);
      BranchesInOrder(slots, used, from + 1);
      if a !in used {
        var deeper := Completions(slots[1..], used + {a});
        CompletionsInOrder(slots[1..], used + {a});
        PrependInOrder(Some(from), deeper);
        var first := Prepend(Some(from), deeper);
        forall i, k | 0 <= i < |first| && 0 <= k < |later| ensures Earlier(first[i], later[k]) {
          assert later[k] in later && deeper[i] in deeper;
          CompletionsShape(slots[1..], used + {a}, deeper[i]);
          BranchesShape(slots, used, from + 1, later[k]);
          BranchMembers(slots, used, from + 1, later[k]);
          EarlierAtHead(first[i], later[k]);
        }
        InOrderAppend(first, later);
      }
    }
  }

  function LeafOf(slots: seq<Slot>, choice: Choice): Best {
    Leaf(TeamOf(slots, choice), TotalScore(TeamOf(slots, choice)))
  }

  /** A scan from `best` ends with `best`, or with the first of the leaves no other leaf beats. */
  lemma {:induction false} ScanFindsFirstBest(best: Best, slots: seq<Slot>, choices: seq<Choice>) returns (at: int)
    ensures -1 <= at < |choices|
    ensures var r := Scan(best, slots, [], 0.0, choices);
            && r == (if at == -1 then best else LeafOf(slots, choices[at]))
            && !Better(best, r) && (at >= 0 ==> Better(r, best))
            && (forall k | 0 <= k < |choices| :: !Better(LeafOf(slots, choices[k]), r))
            && (forall k | 0 <= k < at :: Better(r, LeafOf(slots, choices[k])))
    decreases |choices|
  {
    if choices == [] {
      return -1;
    }
    var leaf := LeafOf(slots, choices[0]);
    assert [] + TeamOf(slots, choices[0]) == TeamOf(slots, choices[0]);
    assert leaf == Leaf([] + TeamOf(slots, choices[0]), 0.0 + TotalScore(TeamOf(slots, choices[0])));
    var rest := ScanFindsFirstBest(if Better(leaf, best) then leaf else best, slots, choices[1..]);
    at := if rest >= 0 then rest + 1 else if Better(leaf, best) then 0 else -1;
    var r := Scan(best, slots, [], 0.0, choices);
    forall k | 0 <= k < |choices| ensures !Better(LeafOf(slots, choices[k]), r) && (k < at ==> Better(r, LeafOf(slots, choices[k]))) {
      if k > 0 {
        assert choices[k] == choices[1..][k - 1];
      }
    }
  }

  /** What `_pick_best_team` returns. */
  function PickBestTeam(slots: seq<Slot>): Best {
    Scan(Best(-1, -1.0, []), slots, [], 0.0, Completions(slots, {}))
  }

  /** `winner` fills more slots than `c`, or as many with a greater match score, or ties and comes no later. */
  ghost predicate Wins(slots: seq<Slot>, winner: Choice, c: Choice) {
    || Size(winner) > Size(c)
    || (Size(winner) == Size(c) && MatchSum(slots, winner) > MatchSum(slots, c))
    || (Size(winner) == Size(c) && MatchSum(slots, winner) == MatchSum(slots, c) && (c == winner || Earlier(winner, c)))
  }

  lemma LeafMeasures(slots: seq<Slot>, choice: Choice)
    requires IsAssignment(slots, {}, choice)
    ensures LeafOf(slots, choice).filledCount == Size(choice) && LeafOf(slots, choice).totalScore == MatchSum(slots, choice)
    ensures IsTeamFor(slots, choice, LeafOf(slots, choice).team)
  {
    TeamSize(slots, {}, choice);
    TeamHoldsTheCandidates(slots, choice);
  }

  lemma FirstBestWins(slots: seq<Slot>, choices: seq<Choice>, at: nat, c: Choice)
    requires at < |choices| && c in choices && InOrder(choices)
    requires IsAssignment(slots, {}, choices[at]) && IsAssignment(slots, {}, c)
    requires forall k | 0 <= k < |choices| :: !Better(LeafOf(slots, choices[k]), LeafOf(slots, choices[at]))
    requires forall k | 0 <= k < at :: Better(LeafOf(slots, choices[at]), LeafOf(slots, choices[k]))
    ensures Wins(slots, choices[at], c)
  {
    var k :| 0 <= k < |choices| && choices[k] == c;
    assert k > at ==> Earlier(choices[at], choices[k]);
    LeafMeasures(slots, choices[at]);
    LeafMeasures(slots, c);
  }

  /**
   The result is the lexicographic maximum of (size, match score) over the admissible assignments, and
   among those that tie, the one that takes the earlier candidate at the first difference.
   */
  lemma PickIsFirstLexicographicMaximum(slots: seq<Slot>) returns (winner: Choice)
    ensures Admissible(slots, {}, winner) && PickBestTeam(slots) == LeafOf(slots, winner)
    ensures IsTeamFor(slots, winner, PickBestTeam(slots).team)
    ensures PickBestTeam(slots).filledCount == Size(winner) && PickBestTeam(slots).totalScore == MatchSum(slots, winner)
    ensures forall c | Admissible(slots, {}, c) :: Wins(slots, winner, c)
  {
    var choices := Completions(slots, {});
    CompletionsInOrder(slots, {});
    CompletionsNonempty(slots, {});
    var at := ScanFindsFirstBest(Best(-1, -1.0, []), slots, choices);
    assert at >= 0 by {
      assert !Better(LeafOf(slots, choices[0]), Scan(Best(-1, -1.0, []), slots, [], 0.0, choices));
    }
    winner := choices[at];
    CompletionsAreAdmissible(slots, {}, winner);
    LeafMeasures(slots, winner);
    forall c | Admissible(slots, {}, c) ensures Wins(slots, winner, c) {
      CompletionsAreAdmissible(slots, {}, c);
      FirstBestWins(slots, choices, at, c);
    }
  }

  lemma {:induction false} CompletionsNonempty(slots: seq<Slot>, used: set<AssetId>)
    ensures Completions(slots, used) != []
    decreases |slots|, 1, 0
  {
    if slots != [] {
      if Exhausted(slots[0], used) {
        CompletionsNonempty(slots[1..], used);
      } else {
        BranchesNonempty(slots, used, 0);
      }
    }
  }

  lemma {:induction false} BranchesNonempty(slots: seq<Slot>, used: set<AssetId>, from: nat)
    requires slots != [] && from <= |slots[0].candidates|
    requires exists j | from <= j < |slots[0].candidates| :: slots[0].candidates[j].assetId !in used
    ensures Branches(slots, used, from) != []
    decreases |slots|, 0, |slots[0].candidates| - from
  {
    var a := slots[0].candidates[from].assetId;
    if a in used {
      BranchesNonempty(slots, used, from + 1);
    } else {
      CompletionsNonempty(slots[1..], used + {a});
    }
  }

  /** No assignment of distinct assets to roles is larger than the returned team. */
  lemma PickIsMaximumMatching(slots: seq<Slot>, other: Choice)
    requires IsAssignment(slots, {}, other)
    ensures PickBestTeam(slots).filledCount == |PickBestTeam(slots).team|
    ensures Size(other) <= |PickBestTeam(slots).team|
    ensures exists c :: IsAssignment(slots, {}, c) && Size(c) == |PickBestTeam(slots).team|
                        && TeamOf(slots, c) == PickBestTeam(slots).team
  {
    var winner := PickIsFirstLexicographicMaximum(slots);
    var rival := Exchange(slots, {}, other);
    TeamSize(slots, {}, rival);
    TeamSize(slots, {}, winner);
    assert Wins(slots, winner, rival);
  }

  /** When all roles can be filled at once, the returned team does so with the greatest sum of match scores. */
  lemma PickIsBestCompleteTeam(slots: seq<Slot>, other: Choice)
    requires IsAssignment(slots, {}, other) && Complete(slots, other)
    ensures |PickBestTeam(slots).team| == |slots|
    ensures MatchSum(slots, other) <= PickBestTeam(slots).totalScore
    ensures exists c :: IsAssignment(slots, {}, c) && Complete(slots, c)
                        && IsTeamFor(slots, c, PickBestTeam(slots).team) && MatchSum(slots, c) == PickBestTeam(slots).totalScore
  {
    var winner := PickIsFirstLexicographicMaximum(slots);
    TeamSize(slots, {}, other);
    TeamSize(slots, {}, winner);
    CompleteIsAdmissible(slots, other);
    assert Wins(slots, winner, other);
  }

  lemma CompleteIsAdmissible(slots: seq<Slot>, choice: Choice)
    requires IsAssignment(slots, {}, choice) && Complete(slots, choice)
    ensures Admissible(slots, {}, choice)
  {
    forall i: nat | i < |slots| ensures choice[i].Some? {
      assert Filled(slots, choice, i);
    }
  }

  // ------------------------------------------------------------- the search object

  class TeamSearch {
    const slots: seq<Slot>
    var used: set<AssetId>
    var team: seq<Member>
    var best: Best

    constructor (slots: seq<Slot>)
      ensures this.slots == slots && used == {} && team == [] && best == Best(-1, -1.0, [])
    {
      this.slots := slots;
      used, team, best := {}, [], Best(-1, -1.0, []);
    }

    /** One call of the inner `dfs`: offers every leaf below, and leaves `used` and `team` as found. */
    method Dfs(index: nat, score: real)
      requires index <= |slots|
      modifies this
      ensures used == old(used) && team == old(team)
      ensures best == Explore(old(best), slots[index..], used, team, score)
      decreases |slots| - index
    {
      if index >= |slots| {
        ExploreLeaf(best, slots[index..], used, team, score);
        if |team| > best.filledCount || (|team| == best.filledCount && score > best.totalScore) {
          best := Best(|team|, score, team);
        }
        return;
      }
      ghost var here := slots[index..];
      assert here[0] == slots[index] && here[1..] == slots[index + 1..];
      var chosen := TryCandidates(index, score);
      if !chosen {
        BranchesEmpty(here, used, 0);
        LeaveEmpty(best, here, used, team, score);
        Dfs(index + 1, score);
      }
    }

    /** The loop of `dfs` over the candidates of one slot; `chosen` says whether one was free. */
    method TryCandidates(index: nat, score: real) returns (chosen: bool)
      requires index < |slots|
      modifies this
      ensures used == old(used) && team == old(team)
      ensures chosen <==> !Exhausted(slots[index], used)
      ensures best == ExploreFrom(old(best), slots[index..], used, team, score, 0)
      decreases |slots| - index, 0
    {
      var slot := slots[index];
      ghost var here := slots[index..];
      assert here[0] == slot && here[1..] == slots[index + 1..];
      ghost var all := ExploreFrom(best, here, used, team, score, 0);
      chosen := false;
      var j := 0;
      while j < |slot.candidates|
        invariant j <= |slot.candidates|
        invariant used == old(used) && team == old(team)
        invariant chosen <==> !ExhaustedUpTo(slot, used, j)
        invariant ExploreFrom(best, here, used, team, score, j) == all
      {
        var candidate := slot.candidates[j];
        ExhaustedStep(slot, used, j);
        if candidate.assetId in used {
          SkipBranch(best, here, used, team, score, j);
        } else {
          chosen := true;
          Take(index, j, score);
        }
        j := j + 1;
      }
      NoBranchLeft(best, here, used, team, score);
      AllSeenExhausted(slot, used);
    }

    /** Tries one free candidate: takes it, searches the remaining slots, and puts it back. */
    method Take(index: nat, j: nat, score: real)
      requires index < |slots| && j < |slots[index].candidates| && slots[index].candidates[j].assetId !in used
      modifies this
      ensures used == old(used) && team == old(team)
      ensures ExploreFrom(best, slots[index..], used, team, score, j + 1)
           == ExploreFrom(old(best), slots[index..], used, team, score, j)
      decreases |slots| - index, 0, 0
    {
      var candidate := slots[index].candidates[j];
      assert slots[index..][1..] == slots[index + 1..];
      TakeBranch(best, slots[index..], used, team, score, j);
      used := used + {candidate.assetId};
      team := team + [MemberFor(slots[index], candidate)];
      Dfs(index + 1, score + ScoreOf(candidate));
      team := team[..|team| - 1];
      used := used - {candidate.assetId};
    }
  }

  /** `best` after the search below a node has been offered all its leaves. */
  ghost function Explore(best: Best, slots: seq<Slot>, used: set<AssetId>, team: seq<Member>, score: real): Best {
    Scan(best, slots, team, score, Completions(slots, used))
  }

  /** The same for the candidates of the first slot from position `from` on. */
  ghost function ExploreFrom(best: Best, slots: seq<Slot>, used: set<AssetId>, team: seq<Member>, score: real,
                             from: nat): Best
    requires slots != [] && from <= |slots[0].candidates|
  {
    Scan(best, slots, team, score, Branches(slots, used, from))
  }

  predicate ExhaustedUpTo(slot: Slot, used: set<AssetId>, j: nat)
    requires j <= |slot.candidates|
  {
    forall i | 0 <= i < j :: slot.candidates[i].assetId in used
  }

  lemma ExhaustedStep(slot: Slot, used: set<AssetId>, j: nat)
    requires j < |slot.candidates|
    ensures ExhaustedUpTo(slot, used, j + 1) <==> ExhaustedUpTo(slot, used, j) && slot.candidates[j].assetId in used
  {
  }

  lemma AllSeenExhausted(slot: Slot, used: set<AssetId>)
    ensures ExhaustedUpTo(slot, used, |slot.candidates|) <==> Exhausted(slot, used)
  {
    assert forall i | 0 <= i < |slot.candidates| :: slot.candidates[i] in slot.candidates;
  }

  lemma SkipBranch(best: Best, slots: seq<Slot>, used: set<AssetId>, team: seq<Member>, score: real, j: nat)
    requires slots != [] && j < |slots[0].candidates| && slots[0].candidates[j].assetId in used
    ensures ExploreFrom(best, slots, used, team, score, j + 1) == ExploreFrom(best, slots, used, team, score, j)
  {
    assert Branches(slots, used, j) == Branches(slots, used, j + 1);
  }

  lemma NoBranchLeft(best: Best, slots: seq<Slot>, used: set<AssetId>, team: seq<Member>, score: real)
    requires slots != []
    ensures ExploreFrom(best, slots, used, team, score, |slots[0].candidates|) == best
  {
  }

  lemma ExploreLeaf(best: Best, slots: seq<Slot>, used: set<AssetId>, team: seq<Member>, score: real)
    requires slots == []
    ensures Explore(best, slots, used, team, score) ==
            if Better(Leaf(team, score), best) then Leaf(team, score) else best
  {
    var leaves: seq<Choice> := [[]];
    assert Completions(slots, used) == leaves && leaves[1..] == [];
    assert TeamOf(slots, leaves[0]) == [] && team + [] == team;
    assert Consider(best, slots, team, score, leaves[0]) == if Better(Leaf(team, score), best) then Leaf(team, score) else best;
  }

  /** Taking candidate `j`, searching below and undoing, then trying the rest, explores branch `j` on. */
  lemma TakeBranch(best: Best, slots: seq<Slot>, used: set<AssetId>, team: seq<Member>, score: real, j: nat)
    requires slots != [] && j < |slots[0].candidates| && slots[0].candidates[j].assetId !in used
    ensures var m := MemberFor(slots[0], slots[0].candidates[j]);
            ExploreFrom(best, slots, used, team, score, j)
            == ExploreFrom(Explore(best, slots[1..], used + {m.assetId}, team + [m], score + m.score),
                           slots, used, team, score, j + 1)
  {
    var m := MemberFor(slots[0], slots[0].candidates[j]);
    var below := Completions(slots[1..], used + {m.assetId});
    ScanPrepend(best, slots, team, score, Some(j), below);
    ScanAppend(best, slots, team, score, Prepend(Some(j), below), Branches(slots, used, j + 1));
  }

  lemma LeaveEmpty(best: Best, slots: seq<Slot>, used: set<AssetId>, team: seq<Member>, score: real)
    requires slots != [] && Exhausted(slots[0], used)
    ensures Explore(best, slots, used, team, score) == Explore(best, slots[1..], used, team, score)
  {
    ScanPrepend(best, slots, team, score, None, Completions(slots[1..], used));
  }

  lemma {:induction false} BranchesEmpty(slots: seq<Slot>, used: set<AssetId>, from: nat)
    requires slots != [] && from <= |slots[0].candidates| && Exhausted(slots[0], used)
    ensures Branches(slots, used, from) == []
    decreases |slots[0].candidates| - from
  {
    if from < |slots[0].candidates| {
      BranchesEmpty(slots, used, from + 1);
    }
  }

  method SearchBestTeam(slots: seq<Slot>) returns (best: Best)
    ensures best == PickBestTeam(slots)
  {
    var search := new TeamSearch(slots);
    assert slots[0..] == slots;
    search.Dfs(0, 0.0);
    best := search.best;
  }

  // ------------------------------------------------------------- match_personnel_team

  datatype Requirement = Requirement(role: string, socialSecurityMonths: Option<int>, noActiveProject: bool)

  datatype MatchResult = MatchResult(matched: bool, team: seq<Member>, missingRoles: seq<string>, totalScore: real)

  /** `str.isspace`: every character Python strips. */
  predicate IsSpace(c: char): (r: bool)
    ensures r <==> c as int in {9, 10, 11, 12, 13, 28, 29, 30, 31, 32, 133, 160, 5760, 8192, 8193, 8194, 8195, 8196, 8197,
                                8198, 8199, 8200, 8201, 8202, 8232, 8233, 8239, 8287, 12288}
  {
    || '\U{9}' <= c <= '\U{D}' || '\U{1C}' <= c <= '\U{20}' || c == '\U{85}' || c == '\U{A0}'
    || c == '\U{1680}' || '\U{2000}' <= c <= '\U{200A}' || c == '\U{2028}' || c == '\U{2029}'
    || c == '\U{202F}' || c == '\U{205F}' || c == '\U{3000}'
  }

  /** `str.strip` */
  function Strip(text: string): string {
    if text == [] then text
    else if IsSpace(text[0]) then Strip(text[1..])
    else if IsSpace(text[|text| - 1]) then Strip(text[..|text| - 1])
    else text
  }

  ghost predicate AllSpace(text: string) {
    forall i | 0 <= i < |text| :: IsSpace(text[i])
  }

  lemma AllSpaceConcat(a: string, b: string)
    requires AllSpace(a) && AllSpace(b)
    ensures AllSpace(a + b)
  {
  }

  ghost predicate TakesEndsOff(text: string, r: string, before: string, after: string) {
    text == before + r + after && AllSpace(before) && AllSpace(after)
  }

  lemma TakesMoreInFront(x: char, text: string, r: string, before: string, after: string)
    requires IsSpace(x) && TakesEndsOff(text, r, before, after)
    ensures TakesEndsOff([x] + text, r, [x] + before, after)
  {
    AllSpaceConcat([x], before);
    Associates([x], before + r, after);
    Associates([x], before, r);
  }

  lemma TakesMoreBehind(x: char, text: string, r: string, before: string, after: string)
    requires IsSpace(x) && TakesEndsOff(text, r, before, after)
    ensures TakesEndsOff(text + [x], r, before, after + [x])
  {
    AllSpaceConcat(after, [x]);
    Associates(before + r, after, [x]);
  }

  /** Stripping takes spaces off both ends, and all of them. */
  lemma {:induction false} StripTakesEndsOff(text: string) returns (before: string, after: string)
    ensures TakesEndsOff(text, Strip(text), before, after)
    ensures var r := Strip(text); r != "" ==> !IsSpace(r[0]) && !IsSpace(r[|r| - 1])
    decreases |text|
  {
    before, after := "", "";
    if text != "" && IsSpace(text[0]) {
      var rest := text[1..];
      before, after := StripTakesEndsOff(rest);
      assert text == [text[0]] + rest;
      TakesMoreInFront(text[0], rest, Strip(rest), before, after);
      before := [text[0]] + before;
    } else if text != "" && IsSpace(text[|text| - 1]) {
      var x, rest := text[|text| - 1], text[..|text| - 1];
      before, after := StripTakesEndsOff(rest);
      assert text == rest + [x];
      TakesMoreBehind(x, rest, Strip(rest), before, after);
      after := after + [x];
    }
  }

  lemma StripIsEmptyIff(text: string)
    ensures Strip(text) == "" <==> AllSpace(text)
  {
    var before, after := StripTakesEndsOff(text);
    if Strip(text) == "" {
      AllSpaceConcat(before, after);
      assert before + Strip(text) + after == before + after;
    } else {
      assert (before + Strip(text) + after)[|before|] == Strip(text)[0];
    }
  }

  /** Requirements with a role name left after stripping, in order. */
  function Normalized(raw: seq<Requirement>): seq<Requirement> {
    if raw == [] then []
    else (if Strip(raw[0].role) == "" then [] else [raw[0].(role := Strip(raw[0].role))]) + Normalized(raw[1..])
  }

  /** How many requirements name a role. */
  ghost function NamedCount(raw: seq<Requirement>): nat {
    if raw == [] then 0 else (if AllSpace(raw[0].role) then 0 else 1) + NamedCount(raw[1..])
  }

  /** Each requirement that names a role is kept, stripped, behind those before it, and no other is. */
  lemma {:induction false} NormalizedKeepsNamed(raw: seq<Requirement>, i: nat)
    requires i < |raw|
    ensures |Normalized(raw)| == NamedCount(raw)
    ensures !AllSpace(raw[i].role) ==>
              NamedCount(raw[..i]) < |Normalized(raw)|
              && Normalized(raw)[NamedCount(raw[..i])] == raw[i].(role := Strip(raw[i].role))
    decreases |raw|
  {
    StripIsEmptyIff(raw[0].role);
    if i > 0 {
      NormalizedKeepsNamed(raw[1..], i - 1);
      assert raw[..i][1..] == raw[1..][..i - 1];
    } else if |raw| > 1 {
      NormalizedKeepsNamed(raw[1..], 0);
    }
  }

  function SlotsFor(required: seq<Requirement>, pool: Requirement -> seq<Candidate>): (slots: seq<Slot>)
    ensures |slots| == |required|
    ensures forall i | 0 <= i < |slots| :: slots[i] == Slot(required[i].role, pool(required[i]))
  {
    seq(|required|, i requires 0 <= i < |required| => Slot(required[i].role, pool(required[i])))
  }

  function SlotRoles(slots: seq<Slot>): (r: seq<string>)
    ensures |r| == |slots| && forall i | 0 <= i < |r| :: r[i] == slots[i].role
  {
    if slots == [] then [] else [slots[0].role] + SlotRoles(slots[1..])
  }

  function TeamRoles(team: seq<Member>): (r: seq<string>)
    ensures |r| == |team| && forall i | 0 <= i < |r| :: r[i] == team[i].role
  {
    if team == [] then [] else [team[0].role] + TeamRoles(team[1..])
  }

  lemma {:induction false} TeamRolesWithinSlots(slots: seq<Slot>, choice: Choice)
    requires |choice| == |slots|
    ensures multiset(TeamRoles(TeamOf(slots, choice))) <= multiset(SlotRoles(slots))
    decreases |slots|
  {
    if slots != [] {
      TeamRolesWithinSlots(slots[1..], choice[1..]);
      assert SlotRoles(slots) == [slots[0].role] + SlotRoles(slots[1..]);
      var tail := TeamOf(slots[1..], choice[1..]);
      if Filled(slots, choice, 0) {
        var m := MemberFor(slots[0], slots[0].candidates[choice[0].value]);
        assert TeamOf(slots, choice) == [m] + tail;
        assert TeamRoles([m] + tail) == [m.role] + TeamRoles(tail) by { assert ([m] + tail)[1..] == tail; }
      } else {
        assert TeamOf(slots, choice) == tail;
      }
    }
  }

  function FirstIndex(s: seq<string>, x: string): (i: nat)
    requires x in s
    ensures i < |s| && s[i] == x && x !in s[..i]
  {
    if s[0] == x then 0 else
      var i := FirstIndex(s[1..], x) + 1;
      assert s[..i] == [s[0]] + s[1..][..i - 1];
      i
  }

  function Repeat(role: string, count: nat): (r: seq<string>)
    ensures |r| == count && forall i | 0 <= i < count :: r[i] == role
    ensures forall x :: multiset(r)[x] == if x == role then count else 0
  {
    if count == 0 then [] else
      var r := Repeat(role, count - 1);
      assert multiset(r + [role]) == multiset(r) + multiset{role};
      r + [role]
  }

  ghost predicate GroupedByFirstMention(required: seq<string>, roles: seq<string>) {
    && (forall x | x in roles :: x in required)
    && (forall i, k | 0 <= i < k < |roles| :: FirstIndex(required, roles[i]) <= FirstIndex(required, roles[k]))
  }

  /** `missing` is the part of `gap` that belongs to the roles mentioned before. */
  ghost predicate CountsOf(gap: multiset<string>, missing: seq<string>, before: seq<string>) {
    forall x :: multiset(missing)[x] == if x in before then gap[x] else 0
  }

  ghost predicate InOrderUpTo(required: seq<string>, missing: seq<string>, i: nat) {
    GroupedByFirstMention(required, missing) && forall x | x in missing :: FirstIndex(required, x) < i
  }

  lemma GroupsExtend(required: seq<string>, roles: seq<string>, role: string, count: nat)
    requires role in required && GroupedByFirstMention(required, roles)
    requires forall x | x in roles :: FirstIndex(required, x) < FirstIndex(required, role)
    ensures GroupedByFirstMention(required, roles + Repeat(role, count))
    ensures forall x | x in roles + Repeat(role, count) :: x in roles || x == role
  {
    var all := roles + Repeat(role, count);
    forall i | 0 <= i < |all| ensures all[i] == if i < |roles| then roles[i] else role {
    }
    forall i, k | 0 <= i < k < |all| ensures all[i] in required && all[k] in required
                                           && FirstIndex(required, all[i]) <= FirstIndex(required, all[k]) {
      assert i < |roles| ==> roles[i] in roles;
      assert k < |roles| ==> roles[k] in roles;
    }
  }

  lemma MissingCounts(gap: multiset<string>, missing: seq<string>, before: seq<string>, role: string)
    requires CountsOf(gap, missing, before)
    ensures role in before ==> CountsOf(gap, missing, before + [role])
    ensures role !in before ==> CountsOf(gap, missing + Repeat(role, gap[role]), before + [role])
  {
    assert multiset(missing + Repeat(role, gap[role])) == multiset(missing) + multiset(Repeat(role, gap[role]));
    forall x ensures x in before + [role] <==> x in before || x == role {
    }
  }

  lemma MissingOrder(required: seq<string>, missing: seq<string>, i: nat, count: nat)
    requires i < |required| && required[i] !in required[..i] && InOrderUpTo(required, missing, i)
    ensures InOrderUpTo(required, missing + Repeat(required[i], count), i + 1)
  {
    assert FirstIndex(required, required[i]) == i;
    GroupsExtend(required, missing, required[i], count);
  }

  /** Counter difference: the unmatched demand, role by role in order of first mention. */
  method MissingRoles(required: seq<string>, matched: seq<string>) returns (missing: seq<string>)
    ensures multiset(missing) == multiset(required) - multiset(matched)
    ensures GroupedByFirstMention(required, missing)
  {
    missing := [];
    var i := 0;
    var gap := multiset(required) - multiset(matched);
    while i < |required|
      invariant i <= |required|
      invariant CountsOf(gap, missing, required[..i]) && InOrderUpTo(required, missing, i)
    {
      var role := required[i];
      assert required[..i + 1] == required[..i] + [role];
      MissingCounts(gap, missing, required[..i], role);
      if role !in required[..i] {
        MissingOrder(required, missing, i, gap[role]);
        missing := missing + Repeat(role, gap[role]);
      }
      i := i + 1;
    }
    assert required[..i] == required;
  }

  lemma NormalizedFrom(required: seq<Requirement>, raw: seq<Requirement>, i: nat)
    requires i < |raw|
    ensures var role := Strip(raw[i].role);
            required + Normalized(raw[i..]) ==
            (if role == "" then required else required + [raw[i].(role := role)]) + Normalized(raw[i + 1..])
  {
    assert raw[i..][1..] == raw[i + 1..];
    Associates(required, [raw[i].(role := Strip(raw[i].role))], Normalized(raw[i + 1..]));
  }

  method NormalizeRequirements(raw: seq<Requirement>) returns (required: seq<Requirement>)
    ensures required == Normalized(raw)
  {
    required := [];
    var i := 0;
    while i < |raw|
      invariant i <= |raw|
      invariant required + Normalized(raw[i..]) == Normalized(raw)
    {
      NormalizedFrom(required, raw, i);
      var role := Strip(raw[i].role);
      if role != "" {
        required := required + [raw[i].(role := role)];
      }
      i := i + 1;
    }
  }

  method CollectCandidates(required: seq<Requirement>, pool: Requirement -> seq<Candidate>) returns (slots: seq<Slot>)
    ensures slots == SlotsFor(required, pool)
  {
    slots := [];
    var i := 0;
    while i < |required|
      invariant i == |slots| <= |required|
      invariant forall k | 0 <= k < i :: slots[k] == Slot(required[k].role, pool(required[k]))
    {
      slots := slots + [Slot(required[i].role, pool(required[i]))];
      i := i + 1;
    }
  }

  /** What a match result says about all assignments of the pool to the requirements. */
  ghost predicate IsMatchResult(slots: seq<Slot>, r: MatchResult) {
    && IsBestTeam(slots, r.team, r.totalScore)
    && multiset(SlotRoles(slots)) == multiset(TeamRoles(r.team)) + multiset(r.missingRoles)
    && (r.matched <==> exists c :: IsAssignment(slots, {}, c) && Complete(slots, c))
    && (forall c | IsAssignment(slots, {}, c) :: |r.missingRoles| <= |slots| - Size(c))
    && (forall c | IsAssignment(slots, {}, c) && Complete(slots, c) :: MatchSum(slots, c) <= r.totalScore)
  }

  /** The team of the first best admissible assignment, with its sum of match scores. */
  ghost predicate IsBestTeam(slots: seq<Slot>, team: seq<Member>, totalScore: real) {
    exists winner :: Admissible(slots, {}, winner) && IsTeamFor(slots, winner, team) && totalScore == MatchSum(slots, winner)
                     && forall c | Admissible(slots, {}, c) :: Wins(slots, winner, c)
  }

  /** `match_personnel_team`; `pool` is the asset query for one requirement. */
  method MatchPersonnelTeam(raw: seq<Requirement>, pool: Requirement -> seq<Candidate>) returns (r: MatchResult)
    ensures IsMatchResult(SlotsFor(Normalized(raw), pool), r)
    ensures r.matched <==> r.missingRoles == []
  {
    var required := NormalizeRequirements(raw);
    var slots := CollectCandidates(required, pool);
    var best, missing := Best(0, 0.0, []), [];
    if required != [] {
      best := SearchBestTeam(slots);
      missing := MissingRoles(SlotRoles(slots), TeamRoles(best.team));
    } else {
      MatchMeaning(slots);
    }
    r := MatchResult(|missing| == 0, best.team, missing, best.totalScore);
    CounterDifferenceIsMatchResult(slots, r);
  }

  lemma CounterDifferenceIsMatchResult(slots: seq<Slot>, r: MatchResult)
    requires r.team == PickBestTeam(slots).team && r.totalScore == PickBestTeam(slots).totalScore
    requires multiset(r.missingRoles) == multiset(SlotRoles(slots)) - multiset(TeamRoles(r.team))
    requires r.matched <==> |r.missingRoles| == 0
    ensures IsMatchResult(slots, r)
  {
    MatchMeaning(slots);
    PickIsBestTeam(slots);
    MissingIsTheRest(SlotRoles(slots), TeamRoles(r.team), r.missingRoles);
  }

  lemma MissingIsTheRest(required: seq<string>, filled: seq<string>, missing: seq<string>)
    requires multiset(filled) <= multiset(required) && multiset(missing) == multiset(required) - multiset(filled)
    ensures multiset(required) == multiset(filled) + multiset(missing) && |missing| == |required| - |filled|
  {
    assert |multiset(required)| == |required| && |multiset(filled)| == |filled| && |multiset(missing)| == |missing|;
  }

  lemma PickIsBestTeam(slots: seq<Slot>)
    ensures IsBestTeam(slots, PickBestTeam(slots).team, PickBestTeam(slots).totalScore)
    ensures forall c | IsAssignment(slots, {}, c) && Complete(slots, c) :: MatchSum(slots, c) <= PickBestTeam(slots).totalScore
  {
    var winner := PickIsFirstLexicographicMaximum(slots);
    forall c | IsAssignment(slots, {}, c) && Complete(slots, c) ensures MatchSum(slots, c) <= PickBestTeam(slots).totalScore {
      PickIsBestCompleteTeam(slots, c);
    }
  }

  /** The facts about the search that turn a counter difference into an answer about all assignments. */
  lemma MatchMeaning(slots: seq<Slot>)
    ensures multiset(TeamRoles(PickBestTeam(slots).team)) <= multiset(SlotRoles(slots))
    ensures |PickBestTeam(slots).team| == |slots| <==> exists c :: IsAssignment(slots, {}, c) && Complete(slots, c)
    ensures forall c | IsAssignment(slots, {}, c) :: Size(c) <= |PickBestTeam(slots).team|
    ensures slots == [] ==> PickBestTeam(slots) == Best(0, 0.0, [])
  {
    var winner := PickIsFirstLexicographicMaximum(slots);
    TeamRolesWithinSlots(slots, winner);
    TeamSize(slots, {}, winner);
    forall c | IsAssignment(slots, {}, c)
      ensures Size(c) <= |PickBestTeam(slots).team| && (Complete(slots, c) <==> Size(c) == |slots|)
    {
      PickIsMaximumMatching(slots, c);
      TeamSize(slots, {}, c);
    }
  }
}
