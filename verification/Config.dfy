/** Configuration: the settings the exporter's guarantees rest on, and the ACL language. */
module Config {
  import opened Base
  import opened Net

  datatype Action = Permit | Deny

  datatype Rule = Rule(action: Action, prefix: Prefix, minLength: Option<nat>, maxLength: Option<nat>)

  datatype Acl = Acl(rules: seq<Rule>)

  /** Addresses are their octets: four for IPv4, sixteen for IPv6. */
  datatype Peer = Peer(
    localAddress: Bytes,
    remoteAsn: nat,
    exportAcl: string,
    hold: nat,
    ipv4: bool,
    ipv6: bool,
    nextHop4: Option<Bytes>,
    nextHop6: Option<Bytes>,
    linkLocal: Option<Bytes>)

  datatype Config = Config(
    asn: nat,
    routerId: nat,
    ipv6: bool,
    tables: seq<nat>,
    maxPrefixes: nat,
    staleLimit: nat,
    acls: map<string, Acl>,
    peers: seq<Peer>)

  // ---- Address predicates -------------------------------------------------

  predicate ValidV4(a: Bytes)
    requires |a| == 4
  {
    a != [0, 0, 0, 0] && !(224 <= a[0] < 240) && a != [255, 255, 255, 255]
  }

  predicate ValidV6(a: Bytes)
    requires |a| == 16
  {
    a != Zeros(16) && a[0] != 255
  }

  predicate LinkLocal(a: Bytes)
    requires |a| == 16
  {
    a[0] == 254 && a[1] / 64 == 2
  }

  predicate ValidRouterId(id: nat) {
    id != 0
  }

  // ---- Next hops ----------------------------------------------------------

  function NextHop4(p: Peer): Option<Bytes> {
    if p.nextHop4.Some? then p.nextHop4
    else if |p.localAddress| == 4 then Some(p.localAddress)
    else None
  }

  function NextHop6(p: Peer): Option<Bytes> {
    if p.nextHop6.Some? then p.nextHop6
    else if |p.localAddress| == 16 then Some(p.localAddress)
    else None
  }

  // ---- Validation: the clauses other theorems use ---------------------------

  predicate HasLength(a: Option<Bytes>, n: nat) {
    a.Some? ==> |a.value| == n
  }

  /** What the field types alone guarantee: integer widths and address sizes. */
  predicate TypedPeer(p: Peer) {
    && p.remoteAsn < TWO32
    && p.hold < TWO16
    && (|p.localAddress| == 4 || |p.localAddress| == 16)
    && HasLength(p.nextHop4, 4)
    && HasLength(p.nextHop6, 16)
    && HasLength(p.linkLocal, 16)
  }

  predicate ValidPeer(cfg: Config, p: Peer) {
    && TypedPeer(p)
    && p.exportAcl in cfg.acls
    && p.remoteAsn != 0 && p.remoteAsn != 23456
    && (p.hold == 0 || p.hold >= 3)
    && (p.ipv4 || p.ipv6)
    && (p.ipv6 ==> cfg.ipv6)
    && (p.ipv4 ==> NextHop4(p).Some? && ValidV4(NextHop4(p).value))
    && (p.ipv6 ==> NextHop6(p).Some? && ValidV6(NextHop6(p).value) && !LinkLocal(NextHop6(p).value))
    && (p.linkLocal.Some? ==> LinkLocal(p.linkLocal.value))
  }

  predicate ValidConfig(cfg: Config) {
    && 0 < cfg.asn < TWO32 && cfg.asn != 23456
    && cfg.routerId < TWO32 && ValidRouterId(cfg.routerId)
    && cfg.maxPrefixes > 0
    && cfg.staleLimit > 0
    && forall i :: 0 <= i < |cfg.peers| ==> ValidPeer(cfg, cfg.peers[i])
  }

  // ---- Access lists -------------------------------------------------------

  predicate Matches(r: Rule, p: Prefix) {
    && Contains(r.prefix, p)
    && p.bits >= (if r.minLength.Some? then r.minLength.value else r.prefix.bits)
    && p.bits <= (if r.maxLength.Some? then r.maxLength.value else r.prefix.bits)
  }

  /** First match decides; no match denies. The contract is the meaning of "first". */
  function Permits(rules: seq<Rule>, p: Prefix): (ok: bool)
    ensures ok <==> exists i :: 0 <= i < |rules| && FirstMatch(rules, p, i) && rules[i].action.Permit?
  {
    if rules == [] then false
    else if Matches(rules[0], p) then
      assert rules[0].action.Permit? ==> FirstMatch(rules, p, 0);
      rules[0].action.Permit?
    else
      var rest := Permits(rules[1..], p);
      assert forall i :: 0 < i < |rules| ==> (FirstMatch(rules, p, i) <==> FirstMatch(rules[1..], p, i - 1)) by {
        forall i | 0 < i < |rules|
          ensures FirstMatch(rules, p, i) <==> FirstMatch(rules[1..], p, i - 1)
        {
          ShiftFirstMatch(rules, p, i);
        }
      }
      assert rest ==> exists i :: 0 <= i < |rules| && FirstMatch(rules, p, i) && rules[i].action.Permit? by {
        if rest {
          var j :| 0 <= j < |rules[1..]| && FirstMatch(rules[1..], p, j) && rules[1..][j].action.Permit?;
          assert FirstMatch(rules, p, j + 1);
        }
      }
      rest
  }

  ghost predicate FirstMatch(rules: seq<Rule>, p: Prefix, i: nat)
    requires i < |rules|
  {
    Matches(rules[i], p) && forall j :: 0 <= j < i ==> !Matches(rules[j], p)
  }

  lemma ShiftFirstMatch(rules: seq<Rule>, p: Prefix, i: nat)
    requires 0 < i < |rules| && !Matches(rules[0], p)
    ensures FirstMatch(rules, p, i) <==> FirstMatch(rules[1..], p, i - 1)
  {
    if FirstMatch(rules[1..], p, i - 1) {
      forall j | 0 <= j < i
        ensures !Matches(rules[j], p)
      {
        if j > 0 {
          assert rules[j] == rules[1..][j - 1];
        }
      }
    }
    if FirstMatch(rules, p, i) {
      forall j | 0 <= j < i - 1
        ensures !Matches(rules[1..][j], p)
      {
        assert rules[1..][j] == rules[j + 1];
      }
    }
  }
}
