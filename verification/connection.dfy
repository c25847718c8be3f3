/** The client's reconnect loop with its circuit breaker and exponential backoff
    (client/harmonograf_client/transport.py, `_run` and the breaker helpers). */
module Connection {
  datatype Breaker = Closed | Open | HalfOpen

  datatype Config = Config(initialMs: nat, maxMs: nat, threshold: nat)

  ghost predicate ValidConfig(cfg: Config) {
    1 <= cfg.threshold && cfg.initialMs <= cfg.maxMs
  }

  /** How one connection attempt goes: whether it proved healthy, and how it ends. */
  datatype Attempt = Attempt(healthy: bool, ending: Ending)
  datatype Ending = Raised | Returned | TaskCancelled

  /** What the loop does, in order: an attempt with how it goes, a wait with its base delay
      before jitter. */
  datatype Action = Cooldown | Connect(state: Breaker, attempt: Attempt) | Wait(ms: nat)

  function Min(a: nat, b: nat): nat {
    if a < b then a else b
  }

  function Pow2(k: nat): nat {
    if k == 0 then 1 else 2 * Pow2(k - 1)
  }

  /** The delay after `k` doublings, capped. */
  function Delay(cfg: Config, k: nat): nat {
    Min(cfg.initialMs * Pow2(k), cfg.maxMs)
  }

  lemma DelayDoubles(cfg: Config, k: nat)
    ensures Min(2 * Delay(cfg, k), cfg.maxMs) == Delay(cfg, k + 1)
  {
    assert cfg.initialMs * Pow2(k + 1) == 2 * (cfg.initialMs * Pow2(k));
  }

  lemma {:induction false} DelayGrows(cfg: Config, j: nat, k: nat)
    requires j <= k
    ensures Delay(cfg, j) <= Delay(cfg, k)
  {
    if j < k {
      DelayGrows(cfg, j, k - 1);
      DelayDoubles(cfg, k - 1);
    }
  }

  /** No attempt starts while the breaker is open, and every half-open trial directly follows
      a cooldown or a half-open attempt that returned without an error. */
  ghost predicate NeverWhileOpen(log: seq<Action>) {
    forall i | 0 <= i < |log| && log[i].Connect? ::
      log[i].state != Open && (log[i].state == HalfOpen ==> MayTry(log[..i]))
  }

  ghost predicate MayTry(log: seq<Action>) {
    log != [] && (log[|log| - 1] == Cooldown || log[|log| - 1] == Connect(HalfOpen, Attempt(false, Returned)))
  }

  ghost predicate WaitsUpTo(log: seq<Action>, ms: nat) {
    forall i | 0 <= i < |log| && log[i].Wait? :: log[i].ms <= ms
  }

  lemma LogStep(log: seq<Action>, a: Action, ms: nat)
    requires NeverWhileOpen(log) && WaitsUpTo(log, ms)
    requires a.Connect? ==> a.state != Open && (a.state == HalfOpen ==> MayTry(log))
    requires a.Wait? ==> a.ms <= ms
    ensures NeverWhileOpen(log + [a]) && WaitsUpTo(log + [a], ms)
  {
    assert forall i | 0 <= i <= |log| :: (log + [a])[..i] == log[..i];
    assert log[..|log|] == log;
  }

  lemma CooldownAllows(log: seq<Action>)
    ensures MayTry(log + [Cooldown])
  {
  }

  lemma ReturnAllows(log: seq<Action>, breaker: Breaker, attempt: Attempt)
    ensures breaker == HalfOpen && attempt == Attempt(false, Returned) ==> MayTry(log + [Connect(breaker, attempt)])
  {
  }

  lemma FirstDelay(cfg: Config)
    requires ValidConfig(cfg)
    ensures Delay(cfg, 0) == cfg.initialMs
  {
  }

  const FAILED := Attempt(false, Raised)

  /** The actions of an outage: `n` attempts in a row that all fail without proving healthy. */
  ghost function OutageLog(cfg: Config, n: nat): seq<Action> {
    if n == 0 then []
    else
      OutageLog(cfg, n - 1)
      + (if n <= cfg.threshold then [Connect(Closed, FAILED)] else [Cooldown, Connect(HalfOpen, FAILED)])
      + (if n < cfg.threshold then [Wait(Delay(cfg, n - 1))] else [])
  }

  class Reconnector {
    const cfg: Config
    var breaker: Breaker
    var consecutiveFailures: nat
    var healthy: bool
    var backoffMs: nat
    ghost var doublings: nat
    ghost var log: seq<Action>

    /** The breaker has left its closed state exactly when the failures have reached the
        threshold; so a half-open trial that fails always reopens through the threshold test,
        and the separate half-open case is never taken. */
    ghost predicate Breaking()
      reads this`breaker, this`consecutiveFailures
    {
      breaker != Closed <==> cfg.threshold <= consecutiveFailures
    }

    /** At the head of the loop: the next delay is the initial one doubled once per wait since
        the last reset, and there were at most as many waits as failures, plus one. */
    ghost predicate Valid()
      reads this
    {
      && ValidConfig(cfg)
      && Breaking()
      && backoffMs == Delay(cfg, doublings)
      && doublings <= consecutiveFailures + 1
      && NeverWhileOpen(log)
      && (breaker == HalfOpen ==> MayTry(log))
      && WaitsUpTo(log, Delay(cfg, cfg.threshold - 1))
    }

    constructor (cfg: Config)
      requires ValidConfig(cfg)
      ensures Valid() && this.cfg == cfg
      ensures breaker == Closed && consecutiveFailures == doublings == 0 && log == []
    {
      this.cfg := cfg;
      breaker, consecutiveFailures, healthy, backoffMs := Closed, 0, false, cfg.initialMs;
      doublings, log := 0, [];
    }

    method OnFailedAttempt()
      requires ValidConfig(cfg) && Breaking()
      modifies this`consecutiveFailures, this`breaker
      ensures Breaking() && consecutiveFailures == old(consecutiveFailures) + 1
      ensures breaker == if cfg.threshold <= consecutiveFailures then Open else Closed
    {
      consecutiveFailures := consecutiveFailures + 1;
      if breaker != Open && consecutiveFailures >= cfg.threshold {
        breaker := Open;
      } else if breaker == HalfOpen {
        assert false;
      }
    }

    method CloseBreaker()
      requires ValidConfig(cfg)
      modifies this`consecutiveFailures, this`breaker
      ensures Breaking() && consecutiveFailures == 0 && breaker == Closed
    {
      breaker, consecutiveFailures := Closed, 0;
    }

    /** A message was handed over on this connection. */
    method MarkHealthy()
      requires ValidConfig(cfg)
      modifies this`healthy, this`consecutiveFailures, this`breaker
      ensures healthy && (old(healthy) ==> breaker == old(breaker) && consecutiveFailures == old(consecutiveFailures))
      ensures !old(healthy) ==> Breaking() && consecutiveFailures == 0 && breaker == Closed
    {
      if healthy {
        return;
      }
      healthy := true;
      CloseBreaker();
    }

    /** After an error the loop waits, unless the breaker's cooldown is due anyway. */
    method BackOff()
      requires ValidConfig(cfg) && Breaking() && backoffMs == Delay(cfg, doublings) && doublings <= consecutiveFailures
      requires NeverWhileOpen(log) && WaitsUpTo(log, Delay(cfg, cfg.threshold - 1)) && breaker != HalfOpen
      modifies this`backoffMs, this`doublings, this`log
      ensures NeverWhileOpen(log) && WaitsUpTo(log, Delay(cfg, cfg.threshold - 1))
      ensures backoffMs == Delay(cfg, doublings) && doublings == old(doublings) + (if breaker == Closed then 1 else 0)
      ensures log == old(log) + (if breaker == Closed then [Wait(Delay(cfg, old(doublings)))] else [])
    {
      hide Delay, NeverWhileOpen, WaitsUpTo;
      if breaker != Open {
        DelayGrows(cfg, doublings, cfg.threshold - 1);
        DelayDoubles(cfg, doublings);
        LogStep(log, Wait(backoffMs), Delay(cfg, cfg.threshold - 1));
        log := log + [Wait(backoffMs)];
        backoffMs, doublings := Min(backoffMs * 2, cfg.maxMs), doublings + 1;
      }
    }

    /** One turn of the loop, with the moments at which a stop may be noticed. */
    method Turn(attempt: Attempt, stopAfterCooldown: bool, stopAfterAttempt: bool) returns (goOn: bool)
      requires Valid()
      modifies this
      ensures goOn ==> Valid()
      ensures NeverWhileOpen(log) && WaitsUpTo(log, Delay(cfg, cfg.threshold - 1))
      ensures old(log) <= log
      ensures var cooldown := if old(breaker) == Open then [Cooldown] else [];
        if old(breaker) == Open && stopAfterCooldown then !goOn && log == old(log) + cooldown
        else
          var state := if old(breaker) == Open then HalfOpen else old(breaker);
          var tried := old(log) + cooldown + [Connect(state, attempt)];
          if attempt.ending.TaskCancelled? then !goOn && log == tried
          else if attempt.healthy then
            && consecutiveFailures == 0 && breaker == Closed
            && goOn == !(attempt.ending.Raised? && stopAfterAttempt)
            && log == tried + (if attempt.ending.Raised? && goOn then [Wait(cfg.initialMs)] else [])
          else if attempt.ending.Returned? then
            && goOn && log == tried && consecutiveFailures == old(consecutiveFailures) && doublings == 0
            && breaker == if old(breaker) == Open then HalfOpen else old(breaker)
          else
            && consecutiveFailures == old(consecutiveFailures) + 1
            && (breaker == if cfg.threshold <= consecutiveFailures then Open else Closed)
            && goOn == !stopAfterAttempt
            && log == tried + (if goOn && breaker == Closed then [Wait(Delay(cfg, old(doublings)))] else [])
            && doublings == old(doublings) + if goOn && breaker == Closed then 1 else 0
    {
      hide Delay, NeverWhileOpen, WaitsUpTo, MayTry;
      if breaker == Open {
        LogStep(log, Cooldown, Delay(cfg, cfg.threshold - 1));
        CooldownAllows(log);
        log := log + [Cooldown];
        if stopAfterCooldown {
          return false;
        }
        breaker := HalfOpen;
      }
      goOn := Try(attempt, stopAfterAttempt);
    }

    /** One attempt and what the loop makes of its end. */
    method Try(attempt: Attempt, stopAfterAttempt: bool) returns (goOn: bool)
      requires Valid() && breaker != Open
      modifies this
      ensures goOn ==> Valid()
      ensures NeverWhileOpen(log) && WaitsUpTo(log, Delay(cfg, cfg.threshold - 1))
      ensures var tried := old(log) + [Connect(old(breaker), attempt)];
        if attempt.ending.TaskCancelled? then !goOn && log == tried
        else if attempt.healthy then
          && consecutiveFailures == 0 && breaker == Closed
          && goOn == !(attempt.ending.Raised? && stopAfterAttempt)
          && log == tried + (if attempt.ending.Raised? && goOn then [Wait(cfg.initialMs)] else [])
        else if attempt.ending.Returned? then
          && goOn && log == tried && consecutiveFailures == old(consecutiveFailures) && doublings == 0
          && breaker == old(breaker)
        else
          && consecutiveFailures == old(consecutiveFailures) + 1
          && (breaker == if cfg.threshold <= consecutiveFailures then Open else Closed)
          && goOn == !stopAfterAttempt
          && log == tried + (if goOn && breaker == Closed then [Wait(Delay(cfg, old(doublings)))] else [])
          && doublings == old(doublings) + if goOn && breaker == Closed then 1 else 0
    {
      hide Delay, NeverWhileOpen, WaitsUpTo, MayTry;
      FirstDelay(cfg);
      healthy := false;
      LogStep(log, Connect(breaker, attempt), Delay(cfg, cfg.threshold - 1));
      ReturnAllows(log, breaker, attempt);
      log := log + [Connect(breaker, attempt)];
      if attempt.healthy {
        MarkHealthy();
      }
      match attempt.ending
      case TaskCancelled =>
        return false;
      case Raised =>
        if healthy {
          CloseBreaker();
          backoffMs, doublings := cfg.initialMs, 0;
        } else {
          OnFailedAttempt();
        }
        if stopAfterAttempt {
          return false;
        }
        BackOff();
        return true;
      case Returned =>
        if healthy {
          CloseBreaker();
        }
        backoffMs, doublings := cfg.initialMs, 0;
        return true;
    }

    /** The whole loop, whatever the network does: no attempt ever starts while the breaker is
        open, a half-open trial only after a cooldown or an error-free trial, and no wait exceeds
        the delay after as many doublings as the threshold allows. */
    method Run(attempts: seq<(Attempt, bool, bool)>)
      requires Valid()
      modifies this
      ensures old(log) <= log && NeverWhileOpen(log) && WaitsUpTo(log, Delay(cfg, cfg.threshold - 1))
    {
      var i := 0;
      while i < |attempts|
        invariant i <= |attempts| && Valid() && old(log) <= log
      {
        var goOn := Turn(attempts[i].0, attempts[i].1, attempts[i].2);
        if !goOn {
          return;
        }
        i := i + 1;
      }
    }

    /** An outage from the start: the threshold's worth of attempts with doubling waits, and
        from then on one half-open trial per cooldown and no other wait. */
    method Outage(n: nat)
      requires Valid() && breaker == Closed && consecutiveFailures == doublings == 0 && log == []
      modifies this
      ensures Valid() && consecutiveFailures == n && log == OutageLog(cfg, n)
      ensures breaker == if n < cfg.threshold then Closed else Open
    {
      for i := 0 to n
        invariant Valid() && consecutiveFailures == i && log == OutageLog(cfg, i)
        invariant breaker == if i < cfg.threshold then Closed else Open
        invariant i < cfg.threshold ==> doublings == i
      {
        var goOn := Turn(FAILED, false, false);
      }
    }
  }
}
