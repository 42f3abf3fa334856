/**
 Token budgets: `app/services/governance.py`.

 On Redis a reservation is WATCH, HGETALL, then MULTI/HSET/EXEC, repeated while EXEC finds the key
 changed since WATCH.  Calls interleave at every one of these round trips; EXEC itself is atomic.
 */
module Governance {
  import opened Common

  datatype Budget = Budget(total: int, used: int)

  /** The Redis hash of one project; a missing key has no fields. */
  datatype Hash = Hash(total: Option<int>, used: Option<int>)

  datatype Answer = Answer(granted: bool, remaining: int)

  predicate Missing(h: Hash) {
    h.total.None? && h.used.None?
  }

  /** The budget a hash stands for: the configured default total and nothing used where a field is absent. */
  function Read(h: Hash, default: int): Budget {
    Budget(if h.total.Some? then h.total.value else default, if h.used.Some? then h.used.value else 0)
  }

  function Stored(b: Budget): Hash {
    Hash(Some(b.total), Some(b.used))
  }

  function Remaining(b: Budget): int {
    Max(0, b.total - b.used)
  }

  /** One reservation with nobody else around. */
  function Reserve(b: Budget, amount: nat): (Budget, Answer) {
    if amount > Remaining(b) then (b, Answer(false, Remaining(b)))
    else
      var charged := b.(used := b.used + amount);
      (charged, Answer(true, Remaining(charged)))
  }

  /** The local table's answer, whose remainder may be negative. */
  function LocalAnswer(b: Budget, amount: nat): Answer {
    if amount > b.total - b.used then Answer(false, b.total - b.used) else Answer(true, b.total - b.used - amount)
  }

  // ------------------------------------------------------------ interleaved calls

  /**
   A finished call: its answer, its failed EXECs, the length of the log when it began, and how often the
   key changed while it ran.
   */
  datatype Entry = Entry(amount: nat, answer: Answer, failures: nat, begun: nat, writesMeanwhile: int)

  /**
   `Looping` is about to WATCH; `Watching` has seen `version` of the key; `Committing` has also read it and
   found enough left; `Peeking` is a `get_budget` that found no key and is about to write the default.
   */
  datatype Client =
    | Looping(amount: nat, begun: nat, start: nat, failures: nat)
    | Watching(amount: nat, begun: nat, start: nat, failures: nat, version: nat)
    | Committing(amount: nat, begun: nat, start: nat, failures: nat, version: nat, seen: Budget)
    | Peeking

  datatype System = System(hash: Hash, version: nat, clients: map<nat, Client>, log: seq<Entry>)

  datatype Event =
    | Begin(client: nat, amount: nat)
    | Watch(client: nat)
    | HGetAll(client: nat)
    | Exec(client: nat)
    | Abandon(client: nat)
    | PeekRead(client: nat)
    | PeekWrite(client: nat)

  function Next(s: System, default: int, ev: Event): System {
    var c := ev.client;
    match ev
    case Begin(_, amount) =>
      if c in s.clients then s else s.(clients := s.clients[c := Looping(amount, |s.log|, s.version, 0)])
    case Watch(_) =>
      if c !in s.clients || !s.clients[c].Looping? then s
      else
        var l := s.clients[c];
        s.(clients := s.clients[c := Watching(l.amount, l.begun, l.start, l.failures, s.version)])
    case HGetAll(_) =>
      if c !in s.clients || !s.clients[c].Watching? then s
      else
        var w, seen := s.clients[c], Read(s.hash, default);
        if w.amount > Remaining(seen)
        then s.(clients := s.clients - {c},
                log := s.log + [Entry(w.amount, Answer(false, Remaining(seen)), w.failures, w.begun, s.version - w.start)])
        else s.(clients := s.clients[c := Committing(w.amount, w.begun, w.start, w.failures, w.version, seen)])
    case Exec(_) =>
      if c !in s.clients || !s.clients[c].Committing? then s
      else
        var k := s.clients[c];
        if k.version != s.version
        then s.(clients := s.clients[c := Looping(k.amount, k.begun, k.start, k.failures + 1)])
        else
          var charged := k.seen.(used := k.seen.used + k.amount);
          System(Stored(charged), s.version + 1, s.clients - {c},
                 s.log + [Entry(k.amount, Answer(true, Remaining(charged)), k.failures, k.begun, s.version - k.start)])
    case Abandon(_) => s.(clients := s.clients - {c})
    case PeekRead(_) =>
      if c in s.clients || !Missing(s.hash) then s else s.(clients := s.clients[c := Peeking])
    case PeekWrite(_) =>
      if c !in s.clients || !s.clients[c].Peeking? then s
      else System(Stored(Budget(default, 0)), s.version + 1, s.clients - {c}, s.log)
  }

  function Play(s: System, default: int, events: seq<Event>): System
    decreases |events|
  {
    if events == [] then s else Play(Next(s, default, events[0]), default, events[1..])
  }

  function Start(h: Hash): System {
    System(h, 0, map[], [])
  }

  /** The budget after the logged calls have been made one after another. */
  function Replay(b: Budget, log: seq<Entry>): Budget
    decreases |log|
  {
    if log == [] then b else Reserve(Replay(b, log[..|log| - 1]), log[|log| - 1].amount).0
  }

  /** Every logged answer is the one its call gets when the log is replayed in order. */
  ghost predicate AnswersInOrder(b: Budget, log: seq<Entry>)
    decreases |log|
  {
    log == [] ||
    (var k := |log| - 1;
     AnswersInOrder(b, log[..k]) && log[k].answer == Reserve(Replay(b, log[..k]), log[k].amount).1)
  }

  function Granted(log: seq<Entry>): nat {
    if log == [] then 0
    else Granted(log[..|log| - 1]) + (if log[|log| - 1].answer.granted then log[|log| - 1].amount else 0)
  }

  ghost predicate NoPeek(events: seq<Event>) {
    forall e | e in events :: !e.PeekRead?
  }

  /** When `get_budget`'s first-use write cannot hurt: the key exists, or there is no default budget to lose. */
  predicate PeekIsHarmless(h: Hash, default: int) {
    !Missing(h) || default <= 0
  }

  /** What a call knows when the key has this version and stands for the budget `current`. */
  ghost predicate ClientSound(c: Client, version: nat, current: Budget) {
    match c
    case Looping(_, _, start, failures) => start + failures <= version
    case Watching(_, _, start, failures, watched) => start + failures <= watched <= version
    case Committing(amount, _, start, failures, watched, seen) =>
      && start + failures <= watched <= version
      && (watched == version ==> seen == current)
      && amount <= Remaining(seen)
    case Peeking => true
  }

  ghost predicate ClientsSound(clients: map<nat, Client>, version: nat, current: Budget) {
    forall c | c in clients :: ClientSound(clients[c], version, current)
  }

  ghost predicate LogSound(b0: Budget, current: Budget, log: seq<Entry>) {
    && current == Replay(b0, log)
    && AnswersInOrder(b0, log)
    && (forall e | e in log :: e.failures <= e.writesMeanwhile)
  }

  ghost predicate Sound(b0: Budget, default: int, s: System) {
    ClientsSound(s.clients, s.version, Read(s.hash, default)) && LogSound(b0, Read(s.hash, default), s.log)
  }

  /** A write of the default can be pending only where it changes nothing. */
  ghost predicate PeekSound(b0: Budget, default: int, s: System) {
    && (forall c | c in s.clients && s.clients[c].Peeking? :: default <= 0 && b0 == Budget(default, 0))
    && (Missing(s.hash) && default <= 0 ==> b0 == Budget(default, 0))
  }

  lemma {:induction false} ReplayKeepsTotal(b: Budget, log: seq<Entry>)
    ensures Replay(b, log).total == b.total
    ensures b.total <= b.used ==> Replay(b, log) == b
    ensures b.used <= Replay(b, log).used <= Max(b.used, b.total)
    decreases |log|
  {
    if log != [] {
      ReplayKeepsTotal(b, log[..|log| - 1]);
    }
  }

  lemma {:induction false} GrantsAreCharged(b: Budget, log: seq<Entry>)
    requires AnswersInOrder(b, log)
    ensures Replay(b, log).used == b.used + Granted(log)
    decreases |log|
  {
    if log != [] {
      GrantsAreCharged(b, log[..|log| - 1]);
    }
  }

  lemma {:induction false} AnswerAt(b: Budget, log: seq<Entry>, i: nat)
    requires AnswersInOrder(b, log) && i < |log|
    ensures log[i].answer == Reserve(Replay(b, log[..i]), log[i].amount).1
    decreases |log|
  {
    var k := |log| - 1;
    if i < k {
      AnswerAt(b, log[..k], i);
      assert log[..k][..i] == log[..i];
    }
  }

  /** One reservation with nobody else around, as its entry tells it. */
  ghost predicate IsReservation(before: Budget, after: Budget, e: Entry) {
    after == Reserve(before, e.amount).0 && e.answer == Reserve(before, e.amount).1 && e.failures <= e.writesMeanwhile
  }

  lemma LogOneMore(b0: Budget, current: Budget, log: seq<Entry>, e: Entry, after: Budget)
    requires LogSound(b0, current, log) && IsReservation(current, after, e)
    ensures LogSound(b0, after, log + [e])
  {
    assert (log + [e])[..|log|] == log;
  }

  /** Nothing to see, or one whole reservation logged. */
  ghost predicate IsStep(default: int, s: System, s': System) {
    if |s'.log| == |s.log| then s'.log == s.log && Read(s'.hash, default) == Read(s.hash, default)
    else
      && |s'.log| == |s.log| + 1 && s'.log[..|s.log|] == s.log
      && IsReservation(Read(s.hash, default), Read(s'.hash, default), s'.log[|s.log|])
  }

  /** A call that only moves on itself. */
  lemma OneMoves(clients: map<nat, Client>, version: nat, current: Budget, c: nat, moved: Client)
    requires ClientsSound(clients, version, current) && ClientSound(moved, version, current)
    ensures ClientsSound(clients[c := moved], version, current)
  {
  }

  lemma OneLeaves(clients: map<nat, Client>, version: nat, current: Budget, c: nat)
    requires ClientsSound(clients, version, current)
    ensures ClientsSound(clients - {c}, version, current)
  {
  }

  /** A write of the key puts every other call's view out of date. */
  lemma OneWrites(clients: map<nat, Client>, version: nat, current: Budget, c: nat, written: Budget)
    requires ClientsSound(clients, version, current)
    ensures ClientsSound(clients - {c}, version + 1, written)
  {
    forall k | k in clients - {c} ensures ClientSound(clients[k], version + 1, written) {
      assert ClientSound(clients[k], version, current);
    }
  }

  ghost predicate AllSound(default: int, s: System) {
    ClientsSound(s.clients, s.version, Read(s.hash, default))
  }

  lemma ExecIsStep(default: int, s: System, c: nat)
    requires AllSound(default, s) && c in s.clients && s.clients[c].Committing?
    ensures AllSound(default, Next(s, default, Exec(c))) && IsStep(default, s, Next(s, default, Exec(c)))
  {
    var k, current := s.clients[c], Read(s.hash, default);
    assert ClientSound(k, s.version, current);
    if k.version == s.version {
      OneWrites(s.clients, s.version, current, c, Reserve(current, k.amount).0);
    } else {
      OneMoves(s.clients, s.version, current, c, Looping(k.amount, k.begun, k.start, k.failures + 1));
    }
  }

  lemma HGetAllIsStep(default: int, s: System, c: nat)
    requires AllSound(default, s) && c in s.clients && s.clients[c].Watching?
    ensures AllSound(default, Next(s, default, HGetAll(c))) && IsStep(default, s, Next(s, default, HGetAll(c)))
  {
    var w, current := s.clients[c], Read(s.hash, default);
    assert ClientSound(w, s.version, current);
    if w.amount > Remaining(current) {
      OneLeaves(s.clients, s.version, current, c);
    } else {
      OneMoves(s.clients, s.version, current, c, Committing(w.amount, w.begun, w.start, w.failures, w.version, current));
    }
  }

  lemma WatchIsStep(default: int, s: System, c: nat)
    requires AllSound(default, s) && c in s.clients && s.clients[c].Looping?
    ensures AllSound(default, Next(s, default, Watch(c))) && IsStep(default, s, Next(s, default, Watch(c)))
  {
    var l, current := s.clients[c], Read(s.hash, default);
    assert ClientSound(l, s.version, current);
    OneMoves(s.clients, s.version, current, c, Watching(l.amount, l.begun, l.start, l.failures, s.version));
  }

  /** Each round trip of each call changes nothing that counts, or is one whole reservation on what is then stored. */
  lemma NextIsStep(default: int, s: System, ev: Event)
    requires AllSound(default, s)
    requires forall c | c in s.clients && s.clients[c].Peeking? :: Read(s.hash, default) == Budget(default, 0)
    ensures AllSound(default, Next(s, default, ev)) && IsStep(default, s, Next(s, default, ev))
  {
    var c, current := ev.client, Read(s.hash, default);
    match ev
    case Begin(_, amount) => OneMoves(s.clients, s.version, current, c, Looping(amount, |s.log|, s.version, 0));
    case Watch(_) => if c in s.clients && s.clients[c].Looping? { WatchIsStep(default, s, c); }
    case HGetAll(_) => if c in s.clients && s.clients[c].Watching? { HGetAllIsStep(default, s, c); }
    case Exec(_) => if c in s.clients && s.clients[c].Committing? { ExecIsStep(default, s, c); }
    case Abandon(_) => OneLeaves(s.clients, s.version, current, c);
    case PeekRead(_) => OneMoves(s.clients, s.version, current, c, Peeking);
    case PeekWrite(_) => OneWrites(s.clients, s.version, current, c, Budget(default, 0));
  }

  lemma StepKeepsLog(b0: Budget, default: int, s: System, s': System)
    requires LogSound(b0, Read(s.hash, default), s.log) && IsStep(default, s, s')
    ensures LogSound(b0, Read(s'.hash, default), s'.log)
  {
    if |s'.log| != |s.log| {
      var e := s'.log[|s.log|];
      LogOneMore(b0, Read(s.hash, default), s.log, e, Read(s'.hash, default));
      assert s'.log == s.log + [e];
    }
  }

  /** Where a pending write of the default can only be harmless, it changes nothing. */
  lemma PendingPeekIsHarmless(b0: Budget, default: int, s: System)
    requires Sound(b0, default, s) && PeekSound(b0, default, s)
    ensures forall c | c in s.clients && s.clients[c].Peeking? :: Read(s.hash, default) == Budget(default, 0)
  {
    ReplayKeepsTotal(b0, s.log);
  }

  lemma NextStaysPeekSound(b0: Budget, default: int, s: System, ev: Event)
    requires PeekSound(b0, default, s)
    requires ev.PeekRead? ==> PeekIsHarmless(s.hash, default)
    ensures PeekSound(b0, default, Next(s, default, ev))
  {
    var s' := Next(s, default, ev);
    forall c | c in s'.clients && s'.clients[c].Peeking? ensures default <= 0 && b0 == Budget(default, 0) {
      assert ev.PeekRead? || (c in s.clients && s.clients[c] == s'.clients[c]);
    }
  }

  /** The key, once written, stays: a harmless peek stays harmless. */
  lemma KeyStays(s: System, default: int, ev: Event)
    ensures Missing(Next(s, default, ev).hash) ==> Missing(s.hash)
  {
  }

  lemma {:induction false} HistoriesStaySound(b0: Budget, default: int, s: System, events: seq<Event>)
    requires Sound(b0, default, s) && PeekSound(b0, default, s)
    requires NoPeek(events) || PeekIsHarmless(s.hash, default)
    ensures Sound(b0, default, Play(s, default, events))
    decreases |events|
  {
    if events != [] {
      PendingPeekIsHarmless(b0, default, s);
      NextIsStep(default, s, events[0]);
      StepKeepsLog(b0, default, s, Next(s, default, events[0]));
      NextStaysPeekSound(b0, default, s, events[0]);
      KeyStays(s, default, events[0]);
      HistoriesStaySound(b0, default, Next(s, default, events[0]), events[1..]);
    }
  }

  // ------------------------------------------------- failed EXECs and the grants that cause them

  /** The number of granted calls. */
  function Grants(log: seq<Entry>): nat {
    if log == [] then 0 else Grants(log[..|log| - 1]) + (if log[|log| - 1].answer.granted then 1 else 0)
  }

  /** A call began behind `begun` entries of the log, when the key had changed once for each grant among them. */
  ghost predicate BeganAt(log: seq<Entry>, begun: nat, start: int) {
    begun <= |log| && start == Grants(log[..begun])
  }

  /** Each entry's `writesMeanwhile` counts the grants logged while it ran. */
  ghost predicate WritesAreGrants(log: seq<Entry>)
    decreases |log|
  {
    log == [] ||
    (var k := |log| - 1;
     WritesAreGrants(log[..k]) && BeganAt(log[..k], log[k].begun, Grants(log[..k]) - log[k].writesMeanwhile))
  }

  ghost predicate HasBegun(c: Client, log: seq<Entry>) {
    !c.Peeking? && BeganAt(log, c.begun, c.start)
  }

  ghost predicate AllBegun(clients: map<nat, Client>, log: seq<Entry>) {
    forall c | c in clients :: HasBegun(clients[c], log)
  }

  /** With no `get_budget` about, the only writes are grants. */
  ghost predicate OnlyGrantsWrite(s: System) {
    s.version == Grants(s.log) && AllBegun(s.clients, s.log) && WritesAreGrants(s.log)
  }

  lemma GrantsOneMore(log: seq<Entry>, e: Entry)
    requires WritesAreGrants(log) && BeganAt(log, e.begun, Grants(log) - e.writesMeanwhile)
    ensures Grants(log + [e]) == Grants(log) + if e.answer.granted then 1 else 0
    ensures WritesAreGrants(log + [e])
  {
    assert (log + [e])[..|log|] == log;
  }

  lemma BegunOneMore(clients: map<nat, Client>, log: seq<Entry>, e: Entry)
    requires AllBegun(clients, log)
    ensures AllBegun(clients, log + [e])
  {
    forall k | k in clients ensures HasBegun(clients[k], log + [e]) {
      assert HasBegun(clients[k], log);
      assert (log + [e])[..clients[k].begun] == log[..clients[k].begun];
    }
  }

  /** The version counts what is logged, and the calls under way began behind some of `s.log`. */
  ghost predicate IsCountedStep(s: System, s': System) {
    && AllBegun(s'.clients, s.log)
    && if |s'.log| == |s.log| then s'.log == s.log && s'.version == s.version
       else
         && |s'.log| == |s.log| + 1 && s'.log[..|s.log|] == s.log
         && var e := s'.log[|s.log|];
            BeganAt(s.log, e.begun, s.version - e.writesMeanwhile)
            && s'.version == s.version + if e.answer.granted then 1 else 0
  }

  lemma NextIsCountedStep(s: System, default: int, ev: Event)
    requires AllBegun(s.clients, s.log) && s.version == Grants(s.log) && !ev.PeekRead?
    ensures IsCountedStep(s, Next(s, default, ev))
  {
    var s', c := Next(s, default, ev), ev.client;
    assert c in s.clients ==> HasBegun(s.clients[c], s.log);
    assert s.log[..|s.log|] == s.log;
    forall k | k in s'.clients ensures HasBegun(s'.clients[k], s.log) {
      assert k != c ==> HasBegun(s.clients[k], s.log);
    }
  }

  lemma StepKeepsCounts(s: System, s': System)
    requires OnlyGrantsWrite(s) && IsCountedStep(s, s')
    ensures OnlyGrantsWrite(s')
  {
    if |s'.log| != |s.log| {
      var e := s'.log[|s.log|];
      assert s'.log == s.log + [e];
      GrantsOneMore(s.log, e);
      BegunOneMore(s'.clients, s.log, e);
    }
  }

  lemma {:induction false} HistoriesOnlyGrantWrites(s: System, default: int, events: seq<Event>)
    requires OnlyGrantsWrite(s) && NoPeek(events)
    ensures OnlyGrantsWrite(Play(s, default, events))
    decreases |events|
  {
    if events != [] {
      assert events[0] in events;
      NextIsCountedStep(s, default, events[0]);
      StepKeepsCounts(s, Next(s, default, events[0]));
      HistoriesOnlyGrantWrites(Next(s, default, events[0]), default, events[1..]);
    }
  }

  lemma {:induction false} WritesAt(log: seq<Entry>, i: nat)
    requires WritesAreGrants(log) && i < |log|
    ensures log[i].begun <= i && log[i].writesMeanwhile == Grants(log[..i]) - Grants(log[..log[i].begun])
    decreases |log|
  {
    var k := |log| - 1;
    if i < k {
      WritesAt(log[..k], i);
      assert log[..k][..i] == log[..i] && log[..k][..log[i].begun] == log[..log[i].begun];
    } else {
      assert log[..k][..log[k].begun] == log[..log[k].begun];
    }
  }

  /** Reservations alone: a call's failed EXECs are at most the grants that others logged while it ran. */
  lemma FailuresArePaidForByGrants(h: Hash, default: int, events: seq<Event>, i: nat)
    requires NoPeek(events) && i < |Play(Start(h), default, events).log|
    ensures var log := Play(Start(h), default, events).log;
            log[i].begun <= i && log[i].failures <= Grants(log[..i]) - Grants(log[..log[i].begun])
  {
    var log := Play(Start(h), default, events).log;
    ReservationsAreSerializable(h, default, events);
    HistoriesOnlyGrantWrites(Start(h), default, events);
    WritesAt(log, i);
    assert log[i] in log;
  }

  /**
   Every interleaving of reservations (and of `get_budget` where it is harmless): what is stored is what
   was granted, the total is never overrun, the answers are those of the logged order, and a call's
   failed EXECs are paid for one by one by writes that others made while it ran.
   */
  lemma ReservationsAreSerializable(h: Hash, default: int, events: seq<Event>)
    requires NoPeek(events) || PeekIsHarmless(h, default)
    ensures var end, b0 := Play(Start(h), default, events), Read(h, default);
            && Read(end.hash, default) == Budget(b0.total, b0.used + Granted(end.log))
            && (b0.used <= b0.total ==> Read(end.hash, default).used <= b0.total)
            && (forall i | 0 <= i < |end.log| ::
                  end.log[i].answer == Reserve(Replay(b0, end.log[..i]), end.log[i].amount).1)
            && (forall e | e in end.log :: e.failures <= e.writesMeanwhile)
  {
    var b0 := Read(h, default);
    HistoriesStaySound(b0, default, Start(h), events);
    var end := Play(Start(h), default, events);
    ReplayKeepsTotal(b0, end.log);
    GrantsAreCharged(b0, end.log);
    forall i | 0 <= i < |end.log|
      ensures end.log[i].answer == Reserve(Replay(b0, end.log[..i]), end.log[i].amount).1
    {
      AnswerAt(b0, end.log, i);
    }
  }

  /** Every answer from the numbers: what the key held at first, and what the calls logged before were granted. */
  lemma AnswersByTheNumbers(h: Hash, default: int, events: seq<Event>, i: nat)
    requires NoPeek(events) || PeekIsHarmless(h, default)
    requires i < |Play(Start(h), default, events).log|
    ensures var log := Play(Start(h), default, events).log;
            var total := if h.total.Some? then h.total.value else default;
            var used := (if h.used.Some? then h.used.value else 0) + Granted(log[..i]);
            && (log[i].answer.granted <==> log[i].amount == 0 || used + log[i].amount <= total)
            && log[i].answer.remaining ==
                 Max(0, total - used - if log[i].answer.granted then log[i].amount else 0)
  {
    var b0, log := Read(h, default), Play(Start(h), default, events).log;
    HistoriesStaySound(b0, default, Start(h), events);
    PrefixInOrder(b0, log, i);
    ReplayKeepsTotal(b0, log[..i]);
    GrantsAreCharged(b0, log[..i]);
    AnswerAt(b0, log, i);
  }

  lemma {:induction false} PrefixInOrder(b: Budget, log: seq<Entry>, i: nat)
    requires AnswersInOrder(b, log) && i <= |log|
    ensures AnswersInOrder(b, log[..i])
    decreases |log|
  {
    if i == |log| {
      assert log[..i] == log;
    } else {
      PrefixInOrder(b, log[..|log| - 1], i);
      assert log[..|log| - 1][..i] == log[..i];
    }
  }

  ghost predicate AlwaysConserved(h: Hash, default: int) {
    forall events ::
      var end := Play(Start(h), default, events);
      Read(end.hash, default).used == Read(h, default).used + Granted(end.log)
  }

  /** With `get_budget` among the calls, reservations are safe exactly when its first-use write is harmless. */
  lemma PeekErasesExactlyOnFirstUse(h: Hash, default: int)
    ensures AlwaysConserved(h, default) <==> PeekIsHarmless(h, default)
  {
    if PeekIsHarmless(h, default) {
      forall events
        ensures var end := Play(Start(h), default, events);
                Read(end.hash, default).used == Read(h, default).used + Granted(end.log)
      {
        ReservationsAreSerializable(h, default, events);
      }
    } else {
      ErasingHistory(h, default);
      var end := Play(Start(h), default, [PeekRead(0)] + (Alone(1, 1) + [PeekWrite(0)]));
      assert Read(end.hash, default).used != Read(h, default).used + Granted(end.log);
      assert !AlwaysConserved(h, default);
    }
  }

  /** The round trips of a call that nobody disturbs. */
  function Alone(c: nat, amount: nat): seq<Event> {
    [Begin(c, amount)] + ([Watch(c)] + ([HGetAll(c)] + ([Exec(c)] + [])))
  }

  lemma PlayStep(s: System, default: int, ev: Event, rest: seq<Event>)
    ensures Play(s, default, [ev] + rest) == Play(Next(s, default, ev), default, rest)
  {
    assert ([ev] + rest)[1..] == rest;
  }

  lemma {:induction false} PlayAppend(s: System, default: int, a: seq<Event>, b: seq<Event>)
    ensures Play(s, default, a + b) == Play(Play(s, default, a), default, b)
    decreases |a|
  {
    if a == [] {
      assert a + b == b;
    } else {
      assert (a + b)[1..] == a[1..] + b;
      PlayAppend(Next(s, default, a[0]), default, a[1..], b);
    }
  }

  /** A call that nobody disturbs and that asks for no more than is left is charged and granted. */
  lemma AloneIsGranted(s: System, default: int, c: nat, amount: nat)
    requires c !in s.clients && amount <= Remaining(Read(s.hash, default))
    ensures var end, charged := Play(s, default, Alone(c, amount)), Reserve(Read(s.hash, default), amount).0;
            && end.hash == Stored(charged) && end.clients == s.clients
            && |end.log| == |s.log| + 1 && end.log[..|s.log|] == s.log
            && end.log[|s.log|].amount == amount && end.log[|s.log|].answer == Answer(true, Remaining(charged))
  {
    var seen := Read(s.hash, default);
    var s1 := s.(clients := s.clients[c := Looping(amount, |s.log|, s.version, 0)]);
    var s2 := s.(clients := s.clients[c := Watching(amount, |s.log|, s.version, 0, s.version)]);
    var s3 := s.(clients := s.clients[c := Committing(amount, |s.log|, s.version, 0, s.version, seen)]);
    assert Next(s, default, Begin(c, amount)) == s1;
    assert Next(s1, default, Watch(c)) == s2;
    assert Next(s2, default, HGetAll(c)) == s3;
    PlayStep(s, default, Begin(c, amount), [Watch(c)] + ([HGetAll(c)] + ([Exec(c)] + [])));
    PlayStep(s1, default, Watch(c), [HGetAll(c)] + ([Exec(c)] + []));
    PlayStep(s2, default, HGetAll(c), [Exec(c)] + []);
    PlayStep(s3, default, Exec(c), []);
    assert Next(s3, default, Exec(c)).clients == s.clients;
  }

  /** A `get_budget` finds no key, a reservation is granted, and then the default is written over it. */
  lemma ErasingHistory(h: Hash, default: int)
    requires Missing(h) && default > 0
    ensures var end := Play(Start(h), default, [PeekRead(0)] + (Alone(1, 1) + [PeekWrite(0)]));
            end.hash == Stored(Budget(default, 0)) && Granted(end.log) == 1
  {
    var s1 := Start(h).(clients := map[0 := Peeking]);
    assert Next(Start(h), default, PeekRead(0)) == s1;
    PlayStep(Start(h), default, PeekRead(0), Alone(1, 1) + [PeekWrite(0)]);
    AloneIsGranted(s1, default, 1, 1);
    var s2 := Play(s1, default, Alone(1, 1));
    PlayAppend(s1, default, Alone(1, 1), [PeekWrite(0)]);
    PlayStep(s2, default, PeekWrite(0), []);
    assert [PeekWrite(0)] + [] == [PeekWrite(0)];
    OneGrant(s2.log[0]);
    assert s2.log == [s2.log[0]];
  }

  lemma OneGrant(e: Entry)
    ensures Granted([e]) == if e.answer.granted then e.amount else 0
  {
    assert [e][..0] == [];
  }

  // ------------------------------------------------------------------ the code itself

  /** The Redis hash of one project and this process's fallback table. */
  class BudgetStore {
    const default: int
    var hash: Hash
    var local: map<string, Budget>

    constructor (default: int, hash: Hash)
      ensures this.default == default && this.hash == hash && local == map[]
    {
      this.default, this.hash, local := default, hash, map[];
    }

    /** What the key holds at attempt `i`, when rival commits put `rivals` there one after another. */
    static function KeyAt(h: Hash, rivals: seq<Hash>, i: nat): Hash
      requires i <= |rivals|
    {
      if i == 0 then h else rivals[i - 1]
    }

    /**
     The optimistic loop.  At attempt `i` a rival commits `rivals[i]` between WATCH and EXEC, until the
     rivals run out: the call ends at the first attempt that is refused or not overtaken.
     */
    method ReserveRedis(amount: nat, rivals: seq<Hash>) returns (answer: Answer, failures: nat)
      modifies this`hash
      ensures failures <= |rivals|
      ensures var (charged, a) := Reserve(Read(KeyAt(old(hash), rivals, failures), default), amount);
              && answer == a
              && hash == (if a.granted then Stored(charged) else KeyAt(old(hash), rivals, failures))
              && (a.granted ==> failures == |rivals|)
      ensures forall i | 0 <= i < failures :: amount <= Remaining(Read(KeyAt(old(hash), rivals, i), default))
    {
      failures := 0;
      while true
        invariant failures <= |rivals| && hash == KeyAt(old(hash), rivals, failures)
        invariant forall i | 0 <= i < failures :: amount <= Remaining(Read(KeyAt(old(hash), rivals, i), default))
        decreases |rivals| - failures
      {
        var total := if hash.total.Some? then hash.total.value else default;
        var used := if hash.used.Some? then hash.used.value else 0;
        var remaining := Max(0, total - used);
        if amount > remaining {
          return Answer(false, remaining), failures;
        }
        var newUsed := used + amount;
        if failures < |rivals| {
          hash := rivals[failures];
          failures := failures + 1;
          continue;
        }
        hash := Hash(Some(total), Some(newUsed));
        return Answer(true, Max(0, total - newUsed)), failures;
      }
    }

    function LocalBudget(project: string): (b: Budget)
      reads this`local
      ensures project !in local ==> b.total == default && b.used == 0
      ensures project in local ==> b == local[project]
    {
      if project in local then local[project] else Budget(default, 0)
    }

    /** The fallback under the lock; it reports a negative remainder as it is. */
    method ReserveLocal(project: string, amount: nat) returns (answer: Answer)
      modifies this`local
      ensures answer.granted <==> amount <= old(LocalBudget(project)).total - old(LocalBudget(project)).used
      ensures local == old(local)[project :=
                var b := old(LocalBudget(project)); if answer.granted then b.(used := b.used + amount) else b]
      ensures answer.remaining == LocalBudget(project).total - LocalBudget(project).used
      ensures answer == LocalAnswer(old(LocalBudget(project)), amount)
    {
      var state := LocalBudget(project);
      local := local[project := state];
      var remaining := state.total - state.used;
      if amount > remaining {
        return Answer(false, remaining);
      }
      state := state.(used := state.used + amount);
      local := local[project := state];
      answer := Answer(true, state.total - state.used);
    }
  }
}
