/**
 * Server-side tie creation and severance (`server/socialNetworkLogic.go`).
 *
 * Both operations look the two agents up in the registry and do nothing
 * unless both are registered. The Go code mutates the two agents through
 * pointers one after the other; the model applies the same updates in the
 * same order to the registry, so that `from == to` (one agent reached
 * twice) receives both.
 */
module Network {
  import opened Agents

  /** Both endpoints are registered: the operations' only guard. */
  predicate BothRegistered(reg: Registry, from: Id, to: Id) {
    from in reg && to in reg
  }

  /**
   * `CreateNetworkConnection`: `from` holds a tie of the given strength to
   * `to` (replacing any earlier strength), `from` logs the creation as
   * performed and `to` logs it as received. No network other than `from`'s
   * changes, and no other agent is touched.
   */
  function CreateNetworkConnection(reg: Registry, from: Id, to: Id, strength: real): (r: Registry)
    ensures !BothRegistered(reg, from, to) ==> r == reg
    ensures r.Keys == reg.Keys
    ensures forall k :: k in reg && k != from && k != to ==> r[k] == reg[k]
    ensures BothRegistered(reg, from, to) ==>
      && r[from].network == reg[from].network[to := strength]
      && r[from].createdPerformed == reg[from].createdPerformed + [to]
      && r[to].createdReceived == reg[to].createdReceived + [from]
      && (from != to ==> r[to].network == reg[to].network)
      && (from != to ==> r[from].createdReceived == reg[from].createdReceived)
      && (from != to ==> r[to].createdPerformed == reg[to].createdPerformed)
  {
    if !BothRegistered(reg, from, to) then reg
    else
      var f := reg[from];
      var reg1 := reg[from := f.(network := f.network[to := strength],
                                 createdPerformed := f.createdPerformed + [to])];
      var t := reg1[to];
      reg1[to := t.(createdReceived := t.createdReceived + [from])]
  }

  /**
   * `SeverNetworkConnection`, as written: `to` leaves `from`'s network, and
   * both the "performed" and the "received" severance are logged on `to`,
   * with `from` as counterparty; `from`'s own logs are left alone.
   */
  function SeverNetworkConnection(reg: Registry, from: Id, to: Id): (r: Registry)
    ensures !BothRegistered(reg, from, to) ==> r == reg
    ensures r.Keys == reg.Keys
    ensures forall k :: k in reg && k != from && k != to ==> r[k] == reg[k]
    ensures BothRegistered(reg, from, to) ==>
      && r[from].network == reg[from].network - {to}
      && r[to].severedPerformed == reg[to].severedPerformed + [from]
      && r[to].severedReceived == reg[to].severedReceived + [from]
      && (from != to ==> r[to].network == reg[to].network)
      && (from != to ==> r[from].severedPerformed == reg[from].severedPerformed)
      && (from != to ==> r[from].severedReceived == reg[from].severedReceived)
  {
    if !BothRegistered(reg, from, to) then reg
    else
      var f := reg[from];
      var reg1 := reg[from := f.(network := f.network - {to})];
      var t := reg1[to];
      reg1[to := t.(severedPerformed := t.severedPerformed + [from],
                    severedReceived := t.severedReceived + [from])]
  }

  /**
   * Severance attributed as creation is: "performed" on the agent that cuts
   * the tie, "received" on the agent that loses it.
   */
  function SeverIntended(reg: Registry, from: Id, to: Id): (r: Registry)
    ensures !BothRegistered(reg, from, to) ==> r == reg
    ensures r.Keys == reg.Keys
    ensures forall k :: k in reg && k != from && k != to ==> r[k] == reg[k]
    ensures BothRegistered(reg, from, to) ==>
      && r[from].network == reg[from].network - {to}
      && r[from].severedPerformed == reg[from].severedPerformed + [to]
      && r[to].severedReceived == reg[to].severedReceived + [from]
      && (from != to ==> r[to].network == reg[to].network)
      && (from != to ==> r[to].severedPerformed == reg[to].severedPerformed)
      && (from != to ==> r[from].severedReceived == reg[from].severedReceived)
  {
    if !BothRegistered(reg, from, to) then reg
    else
      var f := reg[from];
      var reg1 := reg[from := f.(network := f.network - {to},
                                 severedPerformed := f.severedPerformed + [to])];
      var t := reg1[to];
      reg1[to := t.(severedReceived := t.severedReceived + [from])]
  }

  /**
   * Between two distinct registered agents, the severance as written credits
   * the cut to the agent that lost the tie and never to the one that made it,
   * unlike creation, which credits the agent that made the tie.
   */
  lemma SeverCreditsTheWrongAgent(reg: Registry, from: Id, to: Id)
    requires BothRegistered(reg, from, to) && from != to
    ensures SeverNetworkConnection(reg, from, to)[from].severedPerformed == reg[from].severedPerformed
    ensures SeverNetworkConnection(reg, from, to)[to].severedPerformed == reg[to].severedPerformed + [from]
    ensures SeverNetworkConnection(reg, from, to)[to].severedReceived == reg[to].severedReceived + [from]
    ensures CreateNetworkConnection(reg, from, to, 1.0)[from].createdPerformed == reg[from].createdPerformed + [to]
  {
  }

  /**
   * The intended severance mirrors creation: the same agent is credited with
   * performing the creation and the severance of a tie, and the same
   * counterparty with receiving both; the tie itself is undone.
   */
  lemma SeverIntendedMirrorsCreate(reg: Registry, from: Id, to: Id, strength: real)
    requires BothRegistered(reg, from, to) && from != to && to !in reg[from].network
    ensures var c := CreateNetworkConnection(reg, from, to, strength);
      var s := SeverIntended(c, from, to);
      && s[from].network == reg[from].network
      && s[from].createdPerformed == reg[from].createdPerformed + [to]
      && s[from].severedPerformed == reg[from].severedPerformed + [to]
      && s[to].createdReceived == reg[to].createdReceived + [from]
      && s[to].severedReceived == reg[to].severedReceived + [from]
      && s[to].network == reg[to].network
  {
    var c := CreateNetworkConnection(reg, from, to, strength);
    assert c[from].network - {to} == reg[from].network;
  }

  /**
   * Severing a freshly created tie restores `from`'s network, under either
   * attribution; only the logs remember it.
   */
  lemma SeverUndoesCreate(reg: Registry, from: Id, to: Id, strength: real)
    requires BothRegistered(reg, from, to) && to !in reg[from].network
    ensures SeverNetworkConnection(CreateNetworkConnection(reg, from, to, strength), from, to)[from].network
      == reg[from].network
    ensures forall k :: k in reg && k != from ==>
      SeverNetworkConnection(CreateNetworkConnection(reg, from, to, strength), from, to)[k].network
        == reg[k].network
  {
    var c := CreateNetworkConnection(reg, from, to, strength);
    assert c[from].network - {to} == reg[from].network;
  }

  /** Creating ties of strength in [0,1] keeps every tie strength in [0,1]. */
  lemma CreateKeepsUnitStrengths(reg: Registry, from: Id, to: Id, strength: real)
    requires forall k :: k in reg ==> UnitStrengths(reg[k])
    requires 0.0 <= strength <= 1.0
    ensures forall k :: k in reg ==> UnitStrengths(CreateNetworkConnection(reg, from, to, strength)[k])
  {
    var r := CreateNetworkConnection(reg, from, to, strength);
    forall k | k in reg ensures UnitStrengths(r[k]) {
      if BothRegistered(reg, from, to) && k == from {
        assert r[k].network == reg[from].network[to := strength];
      } else if BothRegistered(reg, from, to) && k == to {
        assert r[k].network == reg[to].network;
      }
    }
  }
}
