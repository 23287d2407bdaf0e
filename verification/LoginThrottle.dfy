/** The throttle as the object the gateway keeps: fields updated in place, loops with
    deletes, every mutation written through. Each method is tied to ThrottleModel. */
module LoginThrottles {
  import opened Options
  import opened ThrottleModel

  /** The throttle rows of the store; rows are copied in and out, never shared. */
  class ThrottleRows {
    var accounts: map<string, Account>
    var ips: map<string, seq<int>>

    constructor ()
      ensures Rows() == EMPTY
    {
      accounts, ips := map[], map[];
    }

    function Rows(): Tables
      reads this
    {
      Tables(accounts, ips)
    }

    method SaveThrottleAccount(account: string, row: Account)
      modifies this
      ensures Rows() == old(Rows()).(accounts := old(accounts)[account := row])
    {
      accounts := accounts[account := row];
    }

    method DeleteThrottleAccount(account: string)
      modifies this
      ensures Rows() == old(Rows()).(accounts := old(accounts) - {account})
    {
      accounts := accounts - {account};
    }

    method SaveThrottleIp(ip: string, attempts: seq<int>)
      modifies this
      ensures Rows() == old(Rows()).(ips := old(ips)[ip := attempts])
    {
      ips := ips[ip := attempts];
    }

    method DeleteThrottleIp(ip: string)
      modifies this
      ensures Rows() == old(Rows()).(ips := old(ips) - {ip})
    {
      ips := ips - {ip};
    }
  }

  class LoginThrottle {
    const cfg: Config
    const persist: ThrottleRows?
    var accounts: map<string, Account>
    var ips: map<string, seq<int>>

    constructor (cfg: Config, persist: ThrottleRows?)
      ensures this.cfg == cfg && this.persist == persist
      ensures accounts == map[] && ips == map[]
    {
      this.cfg, this.persist := cfg, persist;
      accounts, ips := map[], map[];
    }

    function State(): Throttle
      reads this, persist
    {
      Throttle(Tables(accounts, ips), if persist == null then None else Some(persist.Rows()))
    }

    method Hydrate(now: int)
      modifies this
      ensures State() == HydrateAll(cfg, old(State()), now)
    {
      if persist != null {
        ghost var before := State();
        var rows := persist.Rows();
        HydrateAccounts(rows.accounts, now);
        HydrateIps(rows.ips, now);
        assert accounts == HydrateAll(cfg, before, now).mem.accounts;
        assert ips == HydrateAll(cfg, before, now).mem.ips;
      }
    }

    method HydrateAccounts(rows: map<string, Account>, now: int)
      modifies this`accounts
      ensures accounts == old(accounts) + map k | k in rows ::
                rows[k].(fails := Live(rows[k].fails, cfg.accountWindowMs, now))
    {
      var todo := rows.Keys;
      while todo != {}
        invariant todo <= rows.Keys
        invariant accounts.Keys == old(accounts).Keys + (rows.Keys - todo)
        invariant forall k :: k in accounts ==>
                                accounts[k] == if k in rows && k !in todo
                                               then rows[k].(fails := Live(rows[k].fails, cfg.accountWindowMs, now))
                                               else old(accounts)[k]
        decreases todo
      {
        var k :| k in todo;
        todo := todo - {k};
        accounts := accounts[k := rows[k].(fails := Live(rows[k].fails, cfg.accountWindowMs, now))];
      }
    }

    method HydrateIps(rows: map<string, seq<int>>, now: int)
      modifies this`ips
      ensures ips == old(ips) + map k | k in rows :: Live(rows[k], cfg.ipWindowMs, now)
    {
      var todo := rows.Keys;
      while todo != {}
        invariant todo <= rows.Keys
        invariant ips.Keys == old(ips).Keys + (rows.Keys - todo)
        invariant forall k :: k in ips ==>
                                ips[k] == if k in rows && k !in todo then Live(rows[k], cfg.ipWindowMs, now)
                                          else old(ips)[k]
        decreases todo
      {
        var k :| k in todo;
        todo := todo - {k};
        ips := ips[k := Live(rows[k], cfg.ipWindowMs, now)];
      }
    }

    method CheckLogin(now: int, ip: string, account: string) returns (result: CheckResult)
      modifies this, persist
      ensures (State(), result) == Check(cfg, old(State()), now, ip, account)
    {
      if ip in ips {
        ips := ips[ip := Live(ips[ip], cfg.ipWindowMs, now)];
        if |ips[ip]| >= cfg.ipMax {
          return Refused(RetryAfterSec(ips[ip][0] + cfg.ipWindowMs - now), ByIp);
        }
      }
      if account in accounts {
        var acc := accounts[account];
        if acc.lockUntil > now {
          return Refused(RetryAfterSec(acc.lockUntil - now), ByAccount);
        }
        acc := acc.(fails := Live(acc.fails, cfg.accountWindowMs, now));
        if |acc.fails| >= cfg.accountMax {
          var backoff := Backoff(cfg, acc.lockCount);
          acc := Account([], now + backoff, acc.lockCount + 1);
          accounts := accounts[account := acc];
          if persist != null {
            persist.SaveThrottleAccount(account, acc);
          }
          return Refused(RetryAfterSec(backoff), ByAccount);
        }
        accounts := accounts[account := acc];
      }
      return Allowed;
    }

    method Fail(now: int, ip: string, account: string)
      modifies this, persist
      ensures State() == RecordFailure(old(State()), now, ip, account)
    {
      ghost var before := State();
      if ip !in ips {
        ips := ips[ip := []];
      }
      ips := ips[ip := ips[ip] + [now]];
      assert ips == before.mem.ips[ip := AttemptsOf(before.mem, ip) + [now]];
      if account !in accounts {
        accounts := accounts[account := Account([], 0, 0)];
      }
      var acc := accounts[account];
      accounts := accounts[account := acc.(fails := acc.fails + [now])];
      assert accounts == before.mem.accounts[account := accounts[account]];
      SaveFailure(ip, ips[ip], account, accounts[account]);
    }

    method SaveFailure(ip: string, attempts: seq<int>, account: string, acc: Account)
      modifies persist
      ensures State() == Throttle(old(State()).mem, SaveAccount(SaveIp(old(State()).sink, ip, attempts), account, acc))
    {
      if persist != null {
        persist.SaveThrottleIp(ip, attempts);
        persist.SaveThrottleAccount(account, acc);
      }
    }

    method Succeed(account: string)
      modifies this, persist
      ensures State() == RecordSuccess(old(State()), account)
    {
      accounts := accounts - {account};
      if persist != null {
        persist.DeleteThrottleAccount(account);
      }
    }

    method Prune(now: int)
      modifies this, persist
      ensures State() == PruneAll(cfg, old(State()), now)
    {
      var droppedIps := PruneIps(now);
      var droppedAccounts := PruneAccounts(now);
      if persist != null {
        DeleteRows(droppedIps, droppedAccounts);
      }
    }

    method PruneIps(now: int) returns (dropped: set<string>)
      modifies this`ips
      ensures dropped == SpentIps(cfg, old(State()).mem, now)
      ensures ips == PruneAll(cfg, old(State()), now).mem.ips
    {
      var todo := ips.Keys;
      dropped := {};
      while todo != {}
        invariant todo <= old(ips).Keys
        invariant dropped == set k | k in old(ips) && k !in todo && Live(old(ips)[k], cfg.ipWindowMs, now) == []
        invariant ips.Keys == old(ips).Keys - dropped
        invariant forall k :: k in ips ==>
                                ips[k] == if k in todo then old(ips)[k] else Live(old(ips)[k], cfg.ipWindowMs, now)
        decreases todo
      {
        var k :| k in todo;
        todo := todo - {k};
        ips := ips[k := Live(ips[k], cfg.ipWindowMs, now)];
        if ips[k] == [] {
          ips := ips - {k};
          dropped := dropped + {k};
        }
      }
    }

    method PruneAccounts(now: int) returns (dropped: set<string>)
      modifies this`accounts
      ensures dropped == SpentAccounts(cfg, old(State()).mem, now)
      ensures accounts == PruneAll(cfg, old(State()), now).mem.accounts
    {
      var todo := accounts.Keys;
      dropped := {};
      while todo != {}
        invariant todo <= old(accounts).Keys
        invariant dropped == set k | k in old(accounts) && k !in todo && Spent(cfg, old(accounts)[k], now)
        invariant accounts.Keys == old(accounts).Keys - dropped
        invariant forall k :: k in accounts ==>
                                accounts[k] == if k in todo then old(accounts)[k]
                                               else old(accounts)[k].(fails := Live(old(accounts)[k].fails, cfg.accountWindowMs, now))
        decreases todo
      {
        var k :| k in todo;
        todo := todo - {k};
        var acc := accounts[k];
        acc := acc.(fails := Live(acc.fails, cfg.accountWindowMs, now));
        accounts := accounts[k := acc];
        if acc.lockUntil <= now && acc.fails == [] {
          accounts := accounts - {k};
          dropped := dropped + {k};
        }
      }
    }

    method DeleteRows(goneIps: set<string>, goneAccounts: set<string>)
      requires persist != null
      modifies persist
      ensures persist.Rows() == Tables(old(persist.accounts) - goneAccounts, old(persist.ips) - goneIps)
    {
      var todo := goneIps;
      while todo != {}
        invariant todo <= goneIps
        invariant persist.Rows() == Tables(old(persist.accounts), old(persist.ips) - (goneIps - todo))
        decreases todo
      {
        var k :| k in todo;
        todo := todo - {k};
        persist.DeleteThrottleIp(k);
      }
      todo := goneAccounts;
      while todo != {}
        invariant todo <= goneAccounts
        invariant persist.Rows() == Tables(old(persist.accounts) - (goneAccounts - todo), old(persist.ips) - goneIps)
        decreases todo
      {
        var k :| k in todo;
        todo := todo - {k};
        persist.DeleteThrottleAccount(k);
      }
    }
  }
}
