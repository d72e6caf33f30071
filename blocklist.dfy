/** The blocklist store: a set of blocked addresses that never takes in an address of the local host. */
module Blocklist {

  import opened Seqs

  /** The addresses of the local host, which the store refuses to block. */
  const LocalIPs: set<string> := {"::1", "127.0.0.1", "::ffff:127.0.0.1"}

  /**
   * isLocal: membership in the fixed local-address set, so exactly the IPv6 loopback, the IPv4 loopback
   * and the IPv4-mapped IPv6 loopback are local.
   */
  predicate IsLocal(ip: string)
    ensures IsLocal(ip) <==> ip == "::1" || ip == "127.0.0.1" || ip == "::ffff:127.0.0.1"
  {
    ip in LocalIPs
  }

  /** The store's invariant: no local address is blocked. */
  ghost predicate NoLocal(s: set<string>)
  {
    forall a :: a in s ==> !IsLocal(a)
  }

  /** A call on the store that changes it. */
  datatype Command = Block(ip: string) | Unblock(ip: string)

  /** The blocked set after one call: blockIP skips local addresses, unblockIP deletes whether or not present. */
  function Step(s: set<string>, c: Command): set<string>
  {
    match c
    case Block(ip) => if IsLocal(ip) then s else s + {ip}
    case Unblock(ip) => s - {ip}
  }

  /** The blocked set after a series of calls, first to last. */
  function Run(s: set<string>, cs: seq<Command>): set<string>
    decreases |cs|
  {
    if cs == [] then s else Run(Step(s, cs[0]), cs[1..])
  }

  /** Blocking adds the address unless it is local, and adds nothing else. */
  lemma BlockMeaning(s: set<string>, ip: string)
    ensures forall a :: a in Step(s, Block(ip)) <==> a in s || (a == ip && !IsLocal(ip))
    ensures IsLocal(ip) ==> Step(s, Block(ip)) == s
  {
  }

  /** Unblocking removes the address and keeps every other one; an absent address leaves the set as it is. */
  lemma UnblockMeaning(s: set<string>, ip: string)
    ensures forall a :: a in Step(s, Unblock(ip)) <==> a in s && a != ip
    ensures ip !in s ==> Step(s, Unblock(ip)) == s
  {
  }

  /** Blocking the same address twice is blocking it once; so is unblocking. */
  lemma StepIdempotent(s: set<string>, c: Command)
    ensures Step(Step(s, c), c) == Step(s, c)
  {
  }

  /** Each call keeps local addresses out of the set. */
  lemma StepKeepsNoLocal(s: set<string>, c: Command)
    requires NoLocal(s)
    ensures NoLocal(Step(s, c))
  {
  }

  /** Whatever calls are made, starting from a set without local addresses, no local address is ever blocked. */
  lemma {:induction false} RunKeepsNoLocal(s: set<string>, cs: seq<Command>)
    requires NoLocal(s)
    ensures NoLocal(Run(s, cs))
    decreases |cs|
  {
    if cs != [] {
      StepKeepsNoLocal(s, cs[0]);
      RunKeepsNoLocal(Step(s, cs[0]), cs[1..]);
    }
  }

  /** The module-level blockedIPs Set and the functions over it. */
  class BlocklistStore {

    var blockedIPs: set<string>

    ghost predicate Valid()
      reads this
    {
      NoLocal(blockedIPs)
    }

    constructor ()
      ensures Valid() && blockedIPs == {}
    {
      blockedIPs := {};
    }

    /** isBlocked: membership in the blocked set; while the store is valid, no local address is blocked. */
    predicate IsBlocked(ip: string)
      reads this
      ensures Valid() && IsLocal(ip) ==> !IsBlocked(ip)
    {
      ip in blockedIPs
    }

    /** blockIP: adds the address unless it is local, in which case it silently does nothing. */
    method BlockIP(ip: string)
      requires Valid()
      modifies this
      ensures Valid()
      ensures blockedIPs == Step(old(blockedIPs), Block(ip))
      ensures !IsLocal(ip) ==> IsBlocked(ip)
    {
      if !IsLocal(ip) {
        blockedIPs := blockedIPs + {ip};
      }
    }

    /** unblockIP: deletes the address; deleting an absent one is no error and changes nothing. */
    method UnblockIP(ip: string)
      requires Valid()
      modifies this
      ensures Valid()
      ensures blockedIPs == Step(old(blockedIPs), Unblock(ip))
      ensures !IsBlocked(ip)
    {
      blockedIPs := blockedIPs - {ip};
    }

    /** getBlockedIPs: every blocked address once, in some order; no local address among them. */
    method GetBlockedIPs() returns (r: seq<string>)
      requires Valid()
      ensures Unique(r)
      ensures |r| == |blockedIPs|
      ensures forall a :: a in r <==> a in blockedIPs
      ensures forall i :: 0 <= i < |r| ==> !IsLocal(r[i])
    {
      r := [];
      var rest := blockedIPs;
      while rest != {}
        invariant rest <= blockedIPs
        invariant Unique(r)
        invariant |r| + |rest| == |blockedIPs|
        invariant forall a :: a in r <==> a in blockedIPs && a !in rest
        decreases |rest|
      {
        var a :| a in rest;
        UniqueAppend(r, a);
        r := r + [a];
        rest := rest - {a};
      }
    }
  }

  /** Blocking then listing shows the address; unblocking then listing no longer does. */
  method BlockListUnblock(store: BlocklistStore, ip: string) returns (afterBlock: seq<string>, afterUnblock: seq<string>)
    requires store.Valid() && !IsLocal(ip)
    modifies store
    ensures store.Valid()
    ensures ip in afterBlock
    ensures ip !in afterUnblock
    ensures forall a :: a in afterUnblock <==> a in old(store.blockedIPs) && a != ip
    ensures store.blockedIPs == old(store.blockedIPs) - {ip}
  {
    store.BlockIP(ip);
    afterBlock := store.GetBlockedIPs();
    store.UnblockIP(ip);
    afterUnblock := store.GetBlockedIPs();
  }
}
