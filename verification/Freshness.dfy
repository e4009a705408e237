/** Staleness of published exports, shared between the kernel worker and its watchdog. */
module Freshness {
  import opened Base
  import opened Net
  import opened Writer
  import Config

  datatype Status = Status(dirtySince: Option<nat>, withdrawn: bool)

  // ---- Exports of a snapshot -----------------------------------------------------------------

  function AclNames(cfg: Config.Config): set<string> {
    set p | p in cfg.peers :: p.exportAcl
  }

  /** One prefix set per access list that some peer refers to. */
  function Filter(cfg: Config.Config, prefixes: set<Prefix>): Exports
    requires forall p <- cfg.peers :: p.exportAcl in cfg.acls
  {
    map name | name in AclNames(cfg) :: set p | p in prefixes && Config.Permits(cfg.acls[name].rules, p)
  }

  // ---- Transitions ------------------------------------------------------------------------------

  function Invalidated(f: Status, now: nat): Status {
    if f.dirtySince.Some? then f else f.(dirtySince := Some(now))
  }

  predicate Stale(f: Status, now: nat, limit: nat) {
    !f.withdrawn && f.dirtySince.Some? && now >= f.dirtySince.value + limit
  }

  /** Replacing the exports, which the channel counts. */
  function Replaced(ch: Channel, exports: Exports): Channel {
    Channel(exports, ch.version + 1)
  }

  function Expired(f: Status, ch: Channel, now: nat, limit: nat): (Status, Channel) {
    if Stale(f, now, limit) then (f.(withdrawn := true), Replaced(ch, map[])) else (f, ch)
  }

  function Published(f: Status, ch: Channel, now: nat, changed: bool, exports: Exports): (Status, Channel) {
    (Status(if changed then Some(now) else None, false), if ch.exports != exports then Replaced(ch, exports) else ch)
  }

  /** Withdrawn exports are empty and still awaiting a fresh snapshot. */
  ghost predicate Sound(f: Status, ch: Channel) {
    f.withdrawn ==> f.dirtySince.Some? && ch.exports == map[]
  }

  /** After the watchdog has looked: nothing exported, nothing stale, or not yet too old. */
  ghost predicate Safe(f: Status, ch: Channel, now: nat, limit: nat) {
    ch.exports == map[] || f.dirtySince.None? || now < f.dirtySince.value + limit
  }

  lemma ExpiryIsSafe(f: Status, ch: Channel, now: nat, limit: nat)
    requires Sound(f, ch)
    ensures var r := Expired(f, ch, now, limit); Sound(r.0, r.1) && Safe(r.0, r.1, now, limit)
  {
  }

  // ---- The object the two threads lock ------------------------------------------------------------

  class Monitor {
    var dirtySince: Option<nat>
    var withdrawn: bool
    var channel: Channel

    ghost function Value(): (Status, Channel)
      reads this
    {
      (Status(dirtySince, withdrawn), channel)
    }

    constructor (now: nat)
      ensures Value() == (Status(Some(now), false), Channel(map[], 0))
    {
      dirtySince, withdrawn, channel := Some(now), false, Channel(map[], 0);
    }

    method Invalidate(now: nat)
      modifies this`dirtySince
      ensures Value() == (Invalidated(old(Value()).0, now), old(Value()).1)
      ensures old(dirtySince).Some? ==> dirtySince == old(dirtySince)
    {
      if dirtySince.None? {
        dirtySince := Some(now);
      }
    }

    method Expire(now: nat, limit: nat)
      modifies this`withdrawn, this`channel
      ensures Value() == Expired(old(Value()).0, old(Value()).1, now, limit)
      ensures old(Sound(Value().0, Value().1)) ==> Sound(Value().0, Value().1) && Safe(Value().0, channel, now, limit)
    {
      if !withdrawn && dirtySince.Some? && now >= dirtySince.value + limit {
        channel := Channel(map[], channel.version + 1);
        withdrawn := true;
      }
    }

    method Publish(now: nat, changed: bool, exports: Exports)
      modifies this
      ensures Value() == Published(old(Value()).0, old(Value()).1, now, changed, exports)
      ensures channel.exports == exports && Sound(Value().0, channel)
    {
      if channel.exports != exports {
        channel := Channel(exports, channel.version + 1);
      }
      dirtySince := if changed then Some(now) else None;
      withdrawn := false;
    }
  }
}
