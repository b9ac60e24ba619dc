/**
 The clocked key-value store behind `RedisService`. Every command is one atomic
 step; a key whose expiry has come is absent for every command.
 */
module Redis {
  import opened Wrappers

  /** Codes, counters, lock tokens, and session payloads (their JSON reduced to the fields read back). */
  datatype Value = Text(text: string) | Number(count: int) | Token(id: nat) | Payload(kind: string, otp: string)

  datatype Cell = Cell(value: Value, expiry: Option<nat>)

  /** `issued` is the supply of random tokens: each is handed out once. */
  datatype Store = Store(cells: map<string, Cell>, now: nat, issued: nat)

  predicate Live(s: Store, key: string) {
    key in s.cells && (s.cells[key].expiry.None? || s.now < s.cells[key].expiry.value)
  }

  /** Live, and due to vanish at time `at`. */
  predicate LiveUntil(s: Store, key: string, at: nat) {
    Live(s, key) && s.cells[key].expiry == Some(at)
  }

  function Get(s: Store, key: string): Option<Value> {
    if Live(s, key) then Some(s.cells[key].value) else None
  }

  function SetEx(s: Store, key: string, value: Value, ttl: nat): Store {
    s.(cells := s.cells[key := Cell(value, Some(s.now + ttl))])
  }

  function Del(s: Store, key: string): Store {
    s.(cells := s.cells - {key})
  }

  /** INCR only meets counters. */
  predicate Countable(s: Store, key: string) {
    Live(s, key) ==> s.cells[key].value.Number?
  }

  /** The value INCR returns. */
  function NextCount(s: Store, key: string): int
    requires Countable(s, key)
  {
    if Live(s, key) then s.cells[key].value.count + 1 else 1
  }

  /** INCR starts a counter without expiry and keeps the expiry of a live one. */
  function Incr(s: Store, key: string): Store
    requires Countable(s, key)
  {
    s.(cells := s.cells[key := Cell(Number(NextCount(s, key)), if Live(s, key) then s.cells[key].expiry else None)])
  }

  function Expire(s: Store, key: string, ttl: nat): Store {
    if Live(s, key) then s.(cells := s.cells[key := s.cells[key].(expiry := Some(s.now + ttl))]) else s
  }

  /** SET NX EX with a fresh token. */
  function Acquire(s: Store, key: string, ttl: nat): Store {
    if Live(s, key) then s.(issued := s.issued + 1)
    else SetEx(s, key, Token(s.issued), ttl).(issued := s.issued + 1)
  }

  /** Compare-and-delete. */
  function Release(s: Store, key: string, token: nat): Store {
    if Get(s, key) == Some(Token(token)) then Del(s, key) else s
  }

  function Tick(s: Store, seconds: nat): Store {
    s.(now := s.now + seconds)
  }

  /** No stored token is one still to be issued. */
  ghost predicate FreshTokens(s: Store) {
    forall k | k in s.cells && s.cells[k].value.Token? :: s.cells[k].value.id < s.issued
  }

  class RedisService {
    var cells: map<string, Cell>
    var now: nat
    var issued: nat

    ghost function State(): Store
      reads this
    {
      Store(cells, now, issued)
    }

    constructor ()
      ensures State() == Store(map[], 0, 0)
    {
      cells, now, issued := map[], 0, 0;
    }

    predicate IsLive(key: string)
      reads this
      ensures IsLive(key) == Live(State(), key)
    {
      key in cells && (cells[key].expiry.None? || now < cells[key].expiry.value)
    }

    method GetValue(key: string) returns (value: Option<Value>)
      ensures value == Get(State(), key)
    {
      value := if IsLive(key) then Some(cells[key].value) else None;
    }

    method SetWithExpirySeconds(key: string, value: Value, ttl: nat)
      modifies this`cells
      ensures State() == SetEx(old(State()), key, value, ttl)
    {
      cells := cells[key := Cell(value, Some(now + ttl))];
    }

    /** Reports how many live keys were removed. */
    method Delete(key: string) returns (removed: nat)
      modifies this`cells
      ensures State() == Del(old(State()), key)
      ensures removed == if Live(old(State()), key) then 1 else 0
    {
      removed := if IsLive(key) then 1 else 0;
      cells := cells - {key};
    }

    method Increment(key: string) returns (count: int)
      requires Countable(State(), key)
      modifies this`cells
      ensures State() == Incr(old(State()), key) && count == NextCount(old(State()), key)
    {
      if IsLive(key) {
        count := cells[key].value.count + 1;
        cells := cells[key := cells[key].(value := Number(count))];
      } else {
        count := 1;
        cells := cells[key := Cell(Number(1), None)];
      }
    }

    method SetExpiry(key: string, ttl: nat)
      modifies this`cells
      ensures State() == Expire(old(State()), key, ttl)
    {
      if IsLive(key) {
        cells := cells[key := cells[key].(expiry := Some(now + ttl))];
      }
    }

    method AcquireLock(key: string, ttl: nat) returns (token: Option<nat>)
      modifies this`cells, this`issued
      ensures State() == Acquire(old(State()), key, ttl)
      ensures token == if Live(old(State()), key) then None else Some(old(issued))
    {
      var uuid := issued;
      issued := issued + 1;
      if IsLive(key) {
        return None;
      }
      cells := cells[key := Cell(Token(uuid), Some(now + ttl))];
      token := Some(uuid);
    }

    method ReleaseLock(key: string, token: nat)
      modifies this`cells
      ensures State() == Release(old(State()), key, token)
    {
      if IsLive(key) && cells[key].value == Token(token) {
        cells := cells - {key};
      }
    }
  }
}
