/** The calls a message makes, as the client, the proxies and the recipient make them: send_message initializes
    and asks for a route, execute_command redeems and sends, send lands or routes, and routing executes the
    command at the next proxy. Between any two steps everybody else may act, and any step may fail. */
module Network {
  import opened Models
  import SessionTable
  import opened Controller
  import opened Relay

  lemma {:induction false} RunOneMore(w: World, events: seq<Event>, e: Event, login: string -> SessionTable.Login)
    requires LegalRun(w, events, login) && Legal(After(w, events, login), e, login)
    ensures LegalRun(w, events + [e], login)
    ensures After(w, events + [e], login) == Next(After(w, events, login), e)
    decreases |events|
  {
    if events == [] {
      assert [e][1..] == [];
      assert events + [e] == [e];
    } else {
      assert (events + [e])[1..] == events[1..] + [e];
      RunOneMore(Next(w, events[0]), events[1..], e, login);
    }
  }

  /** The message stays the same, and the phases have their order. */
  ghost predicate Follows(chain: Chain, chain': Chain) {
    && SameMessage(chain, chain')
    && (chain'.phase == Failed ||
        match chain.phase
        case Starting => chain'.phase == Opened
        case Opened => chain'.phase == Holding && chain'.atSender == chain.atSender
        case Holding =>
          chain'.phase ==
            if !chain.atSender && chain.handed != [] && LastHanded(chain).endRoute then Landing else Arrived
        case Arrived => chain'.phase == if chain.command == Relay.Send then Asking else Ended
        case Asking => chain'.phase == Holding && chain'.atSender == chain.atSender && chain'.handed != []
        case Landing => chain'.phase == Delivered
        case _ => false)
  }

  lemma {:induction false} ActedFollows(c: Tables, chain: Chain, move: Move)
    requires CanAct(chain)
    ensures Follows(chain, Acted(c, chain, move))
  {
  }

  class Network {
    var world: World
    ghost var events: seq<Event>
    ghost const login: string -> SessionTable.Login

    /** The state is what some legal run of the relay leads to. */
    ghost predicate Valid()
      reads this
    {
      LegalRun(START, events, login) && world == After(START, events, login)
    }

    /** Chain `me` is a call under way in one of these phases. */
    ghost predicate Runs(me: nat, phase: Phase)
      reads this
    {
      Valid() && me < |world.chains| && world.chains[me].phase == phase
    }

    ghost predicate Finished(me: nat)
      reads this
    {
      Valid() && me < |world.chains| && world.chains[me].phase in {Delivered, Ended, Failed}
    }

    ghost predicate Succeeded(me: nat)
      reads this
    {
      Finished(me) && world.chains[me].phase == if world.chains[me].command == Relay.Send then Delivered else Ended
    }

    constructor (ghost login: string -> SessionTable.Login)
      ensures Valid() && world == START && this.login == login
    {
      world := START;
      events := [];
      this.login := login;
    }

    lemma {:induction false} Invariant()
      requires Valid()
      ensures Inv(world, login)
    {
      RunKeepsInv(START, events, login);
    }

    /** Other chains, other parties and the sweepers take any legal steps. The caller learns only that. */
    method Interfere(me: nat)
      requires Valid() && me < |world.chains|
      modifies this
      ensures Valid() && old(events) <= events
      ensures me < |world.chains| && world.chains[me] == old(world.chains[me])
    {
    }

    /** What the environment contributes to the next step of `me`: fresh ids and nonces, an order, a draw. */
    method Environment(me: nat) returns (move: Move)
      requires Valid() && me < |world.chains| && CanAct(world.chains[me])
      modifies this
      ensures Valid() && old(events) <= events
      ensures me < |world.chains| && world.chains[me] == old(world.chains[me])
      ensures Legal(world, Act(me, move), login)
    {
      Interfere(me);
      ghost var unusedId := UnusedString(world.usedIds);
      ghost var unusedNonce := UnusedString(world.usedNonces);
      ghost var someOrder := EnumerationExists(world.controller.sessions.proxies.Keys);
      var id :| id !in world.usedIds;
      var nonce :| nonce !in world.usedNonces;
      var order :| Enumerates(order, world.controller.sessions.proxies.Keys);
      move := Move(id, Choice(order, 0, nonce), 0, "");
    }

    method Happen(e: Event)
      requires Valid() && Legal(world, e, login)
      modifies this
      ensures Valid() && events == old(events) + [e] && world == Next(old(world), e)
    {
      RunOneMore(START, events, e, login);
      world := Next(world, e);
      events := events + [e];
    }

    /** One step of `me` after any interference; it may fail before it starts. */
    method Advance(me: nat)
      requires Valid() && me < |world.chains| && CanAct(world.chains[me])
      modifies this
      ensures Valid() && me < |world.chains| && old(events) <= events
      ensures Follows(old(world.chains[me]), world.chains[me])
      ensures RankOf(world.chains[me]) < RankOf(old(world.chains[me]))
    {
      var move := Environment(me);
      Invariant();
      assert ChainRight(world.controller, world.chains[me]);
      ActLowersRank(world.controller, world.chains[me], move);
      ActedFollows(world.controller, world.chains[me], move);
      if * {
        Happen(Break(me));
      } else {
        assert Next(world, Act(me, move)).chains[me] == Acted(world.controller, world.chains[me], move);
        Happen(Act(me, move));
      }
    }

    /** The client's send_message, and its get_status when the command is Status: a message of its own, which is
        the one delivered when the call succeeds. */
    method SendMessage(key: string, to: string, content: Bytes, command: Command) returns (ok: bool, me: nat)
      requires Valid()
      modifies this
      ensures Finished(me) && me == old(|world.chains|)
      ensures old(events) + [Spawn(key, to, content, command)] <= events
      ensures StartedBy(world.chains[me], Spawn(key, to, content, command))
      ensures ok ==> Succeeded(me)
      ensures ok && command == Relay.Send ==> Arrives(world, me, key, to, content, login)
    {
      me := |world.chains|;
      Happen(Spawn(key, to, content, command));
      ok := Initialize(me);
      if ok {
        Invariant();
        assert ChainRight(world.controller, world.chains[me]);
        Advance(me);
        ok := world.chains[me].phase != Failed;
      }
      if ok {
        ok := ExecuteCommand(me);
      }
      if ok && command == Relay.Send {
        Invariant();
        DeliveredArrives(world, me, login);
      }
    }

    /** Opens the conversation and asks for the first route. */
    method Initialize(me: nat) returns (ok: bool)
      requires Runs(me, Starting)
      modifies this
      ensures if ok then Runs(me, Holding) && world.chains[me].atSender else Runs(me, Failed)
      ensures old(events) <= events && SameMessage(old(world.chains[me]), world.chains[me])
    {
      Advance(me);
      if world.chains[me].phase == Failed {
        return false;
      }
      Invariant();
      assert ChainRight(world.controller, world.chains[me]);
      Advance(me);
      if world.chains[me].phase == Failed {
        return false;
      }
      ok := true;
    }

    method ExecuteCommand(me: nat) returns (ok: bool)
      requires Runs(me, Arrived)
      modifies this
      ensures Finished(me) && (ok ==> Succeeded(me))
      ensures old(events) <= events && SameMessage(old(world.chains[me]), world.chains[me])
      decreases RankOf(world.chains[me])
    {
      Invariant();
      assert ChainRight(world.controller, world.chains[me]);
      Advance(me);
      match world.chains[me].phase {
        case Failed => return false;
        case Asking => ok := Send(me);
        case _ => ok := true;
      }
      if * {
        ok := false;
      }
    }

    method Send(me: nat) returns (ok: bool)
      requires Runs(me, Asking)
      modifies this
      ensures Finished(me) && (ok ==> Succeeded(me))
      ensures old(events) <= events && SameMessage(old(world.chains[me]), world.chains[me])
      decreases RankOf(world.chains[me])
    {
      Invariant();
      assert ChainRight(world.controller, world.chains[me]);
      Advance(me);
      if world.chains[me].phase == Failed {
        return false;
      }
      var route := LastHanded(world.chains[me]);
      if route.endRoute {
        ok := LandCommand(me);
      } else {
        ok := RouteCommand(me);
      }
    }

    method RouteCommand(me: nat) returns (ok: bool)
      requires Runs(me, Holding) && world.chains[me].handed != [] && !LastHanded(world.chains[me]).endRoute
      modifies this
      ensures Finished(me) && (ok ==> Succeeded(me))
      ensures old(events) <= events && SameMessage(old(world.chains[me]), world.chains[me])
      decreases RankOf(world.chains[me])
    {
      Advance(me);
      if world.chains[me].phase == Failed {
        return false;
      }
      ok := ExecuteCommand(me);
    }

    method LandCommand(me: nat) returns (ok: bool)
      requires Runs(me, Holding) && world.chains[me].handed != [] && LastHanded(world.chains[me]).endRoute
      requires !world.chains[me].atSender
      modifies this
      ensures Finished(me) && (ok ==> Succeeded(me))
      ensures old(events) <= events && SameMessage(old(world.chains[me]), world.chains[me])
    {
      Advance(me);
      if world.chains[me].phase == Failed {
        return false;
      }
      ok := Receive(me);
    }

    /** The recipient's landing service. */
    method Receive(me: nat) returns (ok: bool)
      requires Runs(me, Landing)
      modifies this
      ensures Finished(me) && (ok ==> Succeeded(me))
      ensures old(events) <= events && SameMessage(old(world.chains[me]), world.chains[me])
    {
      Invariant();
      assert ChainRight(world.controller, world.chains[me]);
      Advance(me);
      ok := world.chains[me].phase == Delivered;
      if * {
        ok := false;
      }
    }
  }
}
