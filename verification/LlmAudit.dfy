/**
 Persistent reservations: `reserve_budget_persistent` in `app/services/llm_audit.py`.

 A call tries the project row under its lock; a missing row or a database error sends it on to Redis,
 and a Redis error to this process's local table.  Each try is atomic, calls interleave between tries,
 and a store may fail before applying a charge or after it with the reply lost.
 */
module LlmAudit {
  import opened Common
  import opened Governance

  /** How a try at a store ends for the caller. */
  datatype Fate = Answered | ReplyLost | StoreDown

  datatype Stage = AtDatabase | AtRedis | AtLocal

  datatype Call = Call(amount: nat, stage: Stage)

  /** The project row if there is one, the Redis hash as a budget, and the local table's entry. */
  datatype Stores = Stores(row: Option<Budget>, redis: Budget, local: Budget)

  datatype Ledger = Ledger(stores: Stores, calls: map<nat, Call>, granted: nat)

  datatype Event =
    | Begin(call: nat, amount: nat, hasProjectId: bool)
    | Try(call: nat, fate: Fate)
    | Abandon(call: nat)

  function Charge(b: Budget, amount: nat): Budget {
    Reserve(b, amount).0
  }

  /** The stores after a try that reached its store, whether or not the reply came back. */
  function Apply(s: Stores, stage: Stage, amount: nat): Stores {
    match stage
    case AtDatabase => if s.row.Some? then s.(row := Some(Charge(s.row.value, amount))) else s
    case AtRedis => s.(redis := Charge(s.redis, amount))
    case AtLocal => s.(local := Charge(s.local, amount))
  }

  /** Whether the store at this stage has the amount left; a missing row has no say. */
  predicate Enough(s: Stores, stage: Stage, amount: nat) {
    match stage
    case AtDatabase => s.row.Some? && Reserve(s.row.value, amount).1.granted
    case AtRedis => Reserve(s.redis, amount).1.granted
    case AtLocal => LocalAnswer(s.local, amount).granted
  }

  function Fallback(stage: Stage): Stage {
    if stage.AtDatabase? then AtRedis else AtLocal
  }

  function Advance(s: Ledger, ev: Event): Ledger {
    match ev
    case Begin(c, amount, hasProjectId) =>
      if c in s.calls then s
      else s.(calls := s.calls[c := Call(amount, if hasProjectId then AtDatabase else AtRedis)])
    case Abandon(c) => s.(calls := s.calls - {c})
    case Try(c, fate) =>
      if c !in s.calls then s
      else
        var call := s.calls[c];
        var onward := s.calls[c := call.(stage := Fallback(call.stage))];
        if call.stage.AtLocal? || (fate.Answered? && !(call.stage.AtDatabase? && s.stores.row.None?))
        then Ledger(Apply(s.stores, call.stage, call.amount), s.calls - {c},
                    s.granted + if Enough(s.stores, call.stage, call.amount) then call.amount else 0)
        else if fate.ReplyLost? then Ledger(Apply(s.stores, call.stage, call.amount), onward, s.granted)
        else s.(calls := onward)
  }

  function History(s: Ledger, events: seq<Event>): Ledger
    decreases |events|
  {
    if events == [] then s else History(Advance(s, events[0]), events[1..])
  }

  function RowUsed(row: Option<Budget>): int {
    if row.Some? then row.value.used else 0
  }

  function RowRemaining(row: Option<Budget>): (r: int)
    ensures row.None? ==> r == 0
    ensures row.Some? ==> r == Max(0, row.value.total - row.value.used)
  {
    if row.Some? then Remaining(row.value) else 0
  }

  function Used(s: Stores): int {
    RowUsed(s.row) + s.redis.used + s.local.used
  }

  /** `now` is `start` with charges no store had to refuse. */
  predicate ChargedWithin(start: Budget, now: Budget) {
    now.total == start.total && start.used <= now.used <= Max(start.used, start.total)
  }

  ghost predicate Sound(start: Stores, s: Ledger) {
    && ChargedWithin(start.redis, s.stores.redis)
    && ChargedWithin(start.local, s.stores.local)
    && (start.row.Some? <==> s.stores.row.Some?)
    && (start.row.Some? ==> ChargedWithin(start.row.value, s.stores.row.value))
    && s.granted <= Used(s.stores) - Used(start)
  }

  lemma {:induction false} HistoriesStaySound(start: Stores, s: Ledger, events: seq<Event>)
    requires Sound(start, s)
    ensures Sound(start, History(s, events))
    decreases |events|
  {
    if events != [] {
      HistoriesStaySound(start, Advance(s, events[0]), events[1..]);
    }
  }

  /** What callers are granted over any history comes out of what the three stores had left at its start. */
  lemma GrantsFitTheThreeStores(start: Stores, events: seq<Event>)
    ensures History(Ledger(start, map[], 0), events).granted
         <= RowRemaining(start.row) + Remaining(start.redis) + Remaining(start.local)
  {
    HistoriesStaySound(start, Ledger(start, map[], 0), events);
  }

  /** For a fresh project: at most its own total and one default each for Redis and the local table. */
  lemma FreshProjectBound(total: nat, default: nat, events: seq<Event>)
    ensures var start := Stores(Some(Budget(total, 0)), Budget(default, 0), Budget(default, 0));
            History(Ledger(start, map[], 0), events).granted <= total + 2 * default
  {
    GrantsFitTheThreeStores(Stores(Some(Budget(total, 0)), Budget(default, 0), Budget(default, 0)), events);
  }

  /** One process making the three tries of a call in turn. */
  class PersistentBudget {
    var stores: Stores

    constructor (stores: Stores)
      ensures this.stores == stores
    {
      this.stores := stores;
    }

    /** The database part; `None` means the call goes on to Redis. */
    method TryRow(amount: nat, fate: Fate) returns (answer: Option<Answer>)
      modifies this
      ensures stores == if fate.StoreDown? then old(stores) else Apply(old(stores), AtDatabase, amount)
      ensures answer.Some? <==> fate.Answered? && old(stores).row.Some?
      ensures answer.Some? ==> answer.value == Reserve(old(stores).row.value, amount).1
    {
      if fate.StoreDown? || stores.row.None? {
        return None;
      }
      var row := stores.row.value;
      var remaining := Max(0, row.total - row.used);
      if amount > remaining {
        return if fate.Answered? then Some(Answer(false, remaining)) else None;
      }
      row := row.(used := row.used + amount);
      stores := stores.(row := Some(row));
      return if fate.Answered? then Some(Answer(true, Max(0, row.total - row.used))) else None;
    }

    /** The Redis part; `None` means the call goes on to the local table. */
    method TryRedis(amount: nat, fate: Fate) returns (answer: Option<Answer>)
      modifies this
      ensures stores == if fate.StoreDown? then old(stores) else Apply(old(stores), AtRedis, amount)
      ensures answer == if fate.Answered? then Some(Reserve(old(stores).redis, amount).1) else None
    {
      answer := None;
      if !fate.StoreDown? {
        var (charged, a) := Reserve(stores.redis, amount);
        stores := stores.(redis := charged);
        answer := if fate.Answered? then Some(a) else None;
      }
    }

    method TryLocal(amount: nat) returns (answer: Answer)
      modifies this
      ensures stores == Apply(old(stores), AtLocal, amount)
      ensures answer == LocalAnswer(old(stores).local, amount)
    {
      answer := LocalAnswer(stores.local, amount);
      if answer.granted {
        stores := stores.(local := stores.local.(used := stores.local.used + amount));
      }
    }

    /**
     A whole undisturbed call: its answer is that of the first store that replies, and what it grants
     some store has been charged.
     */
    method ReservePersistent(amount: nat, rowFate: Fate, redisFate: Fate) returns (answer: Answer)
      modifies this
      ensures stores == History(Ledger(old(stores), map[], 0), CallEvents(amount, rowFate, redisFate)).stores
      ensures History(Ledger(old(stores), map[], 0), CallEvents(amount, rowFate, redisFate)).granted
           == if answer.granted then amount else 0
      ensures answer == if rowFate.Answered? && old(stores).row.Some? then Reserve(old(stores).row.value, amount).1
                        else if redisFate.Answered? then Reserve(old(stores).redis, amount).1
                        else LocalAnswer(old(stores).local, amount)
      ensures answer.granted ==> Used(stores) >= Used(old(stores)) + amount
      ensures Used(stores) >= Used(old(stores))
    {
      ThreeTries(stores, amount, rowFate, redisFate);
      var first := TryRow(amount, rowFate);
      if first.Some? {
        return first.value;
      }
      var second := TryRedis(amount, redisFate);
      if second.Some? {
        return second.value;
      }
      answer := TryLocal(amount);
    }
  }

  /** The stores after a try with this fate. */
  function After(s: Stores, stage: Stage, amount: nat, fate: Fate): Stores {
    if fate.StoreDown? then s else Apply(s, stage, amount)
  }

  /** An undisturbed call: it begins, and tries one store after the other until one answers. */
  function CallEvents(amount: nat, rowFate: Fate, redisFate: Fate): seq<Event> {
    [Event.Begin(0, amount, true), Try(0, rowFate), Try(0, redisFate), Try(0, Answered)]
  }

  /** What the tries of an undisturbed call leave in the stores, and what they grant. */
  lemma ThreeTries(stores: Stores, amount: nat, rowFate: Fate, redisFate: Fate)
    ensures var end := History(Ledger(stores, map[], 0), CallEvents(amount, rowFate, redisFate));
            var afterRow := After(stores, AtDatabase, amount, rowFate);
            var afterRedis := After(afterRow, AtRedis, amount, redisFate);
            if rowFate.Answered? && stores.row.Some?
            then end.stores == afterRow && end.granted == (if Reserve(stores.row.value, amount).1.granted then amount else 0)
            else if redisFate.Answered?
            then end.stores == afterRedis && end.granted == (if Reserve(stores.redis, amount).1.granted then amount else 0)
            else end.stores == Apply(afterRedis, AtLocal, amount)
                 && end.granted == (if LocalAnswer(stores.local, amount).granted then amount else 0)
  {
    FourSteps(Ledger(stores, map[], 0), Event.Begin(0, amount, true), Try(0, rowFate), Try(0, redisFate), Try(0, Answered));
  }

  /** A call without a project id goes straight to Redis. */
  lemma CallBegins(s: Ledger, c: nat, amount: nat, hasProjectId: bool)
    requires c !in s.calls
    ensures Advance(s, Event.Begin(c, amount, hasProjectId)).calls == s.calls[c := Call(amount, if hasProjectId then AtDatabase else AtRedis)]
  {
  }

  lemma FourSteps(s: Ledger, a: Event, b: Event, c: Event, d: Event)
    ensures History(s, [a, b, c, d]) == Advance(Advance(Advance(Advance(s, a), b), c), d)
  {
    assert [a, b, c, d][1..] == [b, c, d] && [b, c, d][1..] == [c, d] && [c, d][1..] == [d] && [d][1..] == [];
    var s1, s2, s3 := Advance(s, a), Advance(Advance(s, a), b), Advance(Advance(Advance(s, a), b), c);
    assert History(s3, [d]) == History(Advance(s3, d), []);
    assert History(s2, [c, d]) == History(s3, [d]);
    assert History(s1, [b, c, d]) == History(s2, [c, d]);
  }
}
