/** The connection state one peer keeps for its remote peer: what `ChatConnection` holds behind
    its lock, and the effect of each write-lock section on it.

    A connection number names one physical connection. A peer owns exactly one end of it, so at one
    peer the number also names the cancel token of that end. Handle ids (UUIDs) are drawn from a
    supply of fresh numbers, given to each operation by its caller. */
module Connection {
  import opened Options

  /** Which end of a physical connection a handle is. */
  datatype Origin = Accept | Dial

  datatype Handle = Handle(id: nat, origin: Origin, conn: nat)

  datatype InternalState = Disconnected | Reconnecting | Connected(handle: Handle)

  datatype PublicState = PublicDisconnected | PublicReconnecting | PublicConnected(id: nat)

  function Publish(state: InternalState): PublicState {
    match state
    case Disconnected => PublicDisconnected
    case Reconnecting => PublicReconnecting
    case Connected(h) => PublicConnected(h.id)
  }

  /** The public state tells what the guarded state is, and the id of the handle held. */
  ghost predicate Mirrors(published: PublicState, state: InternalState) {
    && (published.PublicDisconnected? <==> state.Disconnected?)
    && (published.PublicReconnecting? <==> state.Reconnecting?)
    && (published.PublicConnected? <==> state.Connected?)
    && (published.PublicConnected? ==> published.id == state.handle.id)
  }

  lemma MirrorsIsPublish(published: PublicState, state: InternalState)
    ensures Mirrors(published, state) <==> published == Publish(state)
  {
  }

  /** The value of a `ChatConnection`: the guarded state, the watch channel (its value and the number
      of notifications sent), and the ends whose cancel token has fired. */
  datatype Link = Link(
    state: InternalState, published: PublicState, version: nat, cancelled: set<nat>)
  {
    /** The connection currently held, as a set of at most one. */
    function Current(): set<nat> {
      if state.Connected? then {state.handle.conn} else {}
    }
  }

  /** `send_modify`: always notifies. */
  function Notify(l: Link): Link {
    l.(published := Publish(l.state), version := l.version + 1)
  }

  /** `send_if_modified`: notifies only when the public state changes. */
  function NotifyIfModified(l: Link): Link {
    if l.published != Publish(l.state) then Notify(l) else l
  }

  /** Cancels the token of the handle being held, if any. */
  function ShutdownCurrent(l: Link): Link {
    l.(cancelled := l.cancelled + l.Current())
  }

  /** The end a peer keeps when both peers dialed each other: its own dial at the peer with the
      smaller endpoint id, the accepted connection at the other. */
  function Preferred(lowerId: bool): Origin {
    if lowerId then Dial else Accept
  }

  /** Whether a new handle displaces the current one. */
  function ShouldSwitch(lowerId: bool, state: InternalState, incoming: Handle): (r: bool)
    ensures !r <==>
      state.Connected? && state.handle.origin != incoming.origin && incoming.origin != Preferred(lowerId)
  {
    if state.Connected? then
      if state.handle.origin == incoming.origin then true
      else
        match (lowerId, incoming.origin)
        case (true, Dial) => true
        case (true, Accept) => false
        case (false, Accept) => true
        case (false, Dial) => false
    else true
  }

  /** `update_handle`: switch to the new handle, or shut it down and rotate the id of the old one. */
  function AfterUpdate(l: Link, lowerId: bool, incoming: Handle, rotatedId: nat): Link {
    if ShouldSwitch(lowerId, l.state, incoming) then
      Notify(ShutdownCurrent(l).(state := Connected(incoming)))
    else if l.state.Connected? then
      Notify(l.(cancelled := l.cancelled + {incoming.conn},
                state := Connected(l.state.handle.(id := rotatedId))))
    else l
  }

  /** `close`. */
  function AfterClose(l: Link): Link {
    NotifyIfModified(ShutdownCurrent(l).(state := Disconnected))
  }

  /** `set_state_disconnected_if_id_matches`. */
  function AfterDisconnect(l: Link, expectedId: nat): Link {
    if l.state.Connected? && l.state.handle.id == expectedId then AfterClose(l) else l
  }

  /** The first section of `reconnect`: claims the dial if the peer is disconnected. */
  function AfterReconnectStart(l: Link): Link {
    if l.state.Disconnected? then NotifyIfModified(l.(state := Reconnecting)) else l
  }

  /** The section of `reconnect` run when the dial yields no handle. */
  function AfterDialFailure(l: Link): Link {
    if l.state.Reconnecting? then NotifyIfModified(l.(state := Disconnected)) else l
  }

  /** The connection object itself. Every method is one write-lock section. */
  class ChatConnection {
    const localId: nat
    const remoteId: nat
    var state: InternalState
    var published: PublicState
    var version: nat
    var cancelled: set<nat>

    ghost function View(): Link
      reads this
    {
      Link(state, published, version, cancelled)
    }

    /** The public state mirrors the guarded one whenever the lock is free. */
    ghost predicate Valid()
      reads this
    {
      Mirrors(published, state)
    }

    constructor (localId: nat, remoteId: nat)
      ensures this.localId == localId && this.remoteId == remoteId && Valid()
      ensures View() == Link(Disconnected, PublicDisconnected, 0, {})
    {
      this.localId, this.remoteId := localId, remoteId;
      state, published, version, cancelled := Disconnected, PublicDisconnected, 0, {};
    }

    constructor Accepted(localId: nat, remoteId: nat, handle: Handle)
      ensures this.localId == localId && this.remoteId == remoteId && Valid()
      ensures View() == Link(Connected(handle), PublicConnected(handle.id), 0, {})
    {
      this.localId, this.remoteId := localId, remoteId;
      state, published, version, cancelled := Connected(handle), PublicConnected(handle.id), 0, {};
    }

    method Shutdown(handle: Handle)
      modifies this`cancelled
      ensures cancelled == old(cancelled) + {handle.conn}
    {
      cancelled := cancelled + {handle.conn};
    }

    method SendModify()
      modifies this`published, this`version
      ensures View() == Notify(old(View()))
      ensures Mirrors(published, state) && version == old(version) + 1
    {
      published := Publish(state);
      version := version + 1;
    }

    method SendIfModified()
      modifies this`published, this`version
      ensures View() == NotifyIfModified(old(View()))
      ensures Mirrors(published, state)
      ensures version == old(version) + if Mirrors(old(published), state) then 0 else 1
    {
      if published != Publish(state) {
        published := Publish(state);
        version := version + 1;
      }
    }

    /** A handle of the other origin that is not the preferred one is shut down, and the handle held
        gets a new id; any other takes the place of the handle held, which is shut down. Either way
        the new id is published. */
    method UpdateHandle(incoming: Handle, rotatedId: nat)
      requires Valid()
      modifies this
      ensures Valid() && version == old(version) + 1
      ensures
        var refused := old(state).Connected? && old(state).handle.origin != incoming.origin
                       && (incoming.origin == if localId < remoteId then Accept else Dial);
        if refused then
          && state == Connected(old(state).handle.(id := rotatedId))
          && cancelled == old(cancelled) + {incoming.conn}
        else
          && state == Connected(incoming)
          && cancelled == old(cancelled) + if old(state).Connected? then {old(state).handle.conn} else {}
      ensures View() == AfterUpdate(old(View()), localId < remoteId, incoming, rotatedId)
    {
      var shouldSwitch := true;
      if state.Connected? {
        if state.handle.origin != incoming.origin {
          if localId < remoteId {
            shouldSwitch := incoming.origin == Dial;
          } else {
            shouldSwitch := incoming.origin == Accept;
          }
        }
      }
      if shouldSwitch {
        if state.Connected? {
          Shutdown(state.handle);
        }
        state := Connected(incoming);
        SendModify();
      } else {
        Shutdown(incoming);
        state := Connected(state.handle.(id := rotatedId));
        SendModify();
      }
    }

    method Close()
      requires Valid()
      modifies this
      ensures Valid() && View() == AfterClose(old(View()))
      ensures state.Disconnected? && version == old(version) + if old(state).Disconnected? then 0 else 1
      ensures cancelled == old(cancelled) + if old(state).Connected? then {old(state).handle.conn} else {}
    {
      if state.Connected? {
        Shutdown(state.handle);
      }
      state := Disconnected;
      SendIfModified();
    }

    method DisconnectIfIdMatches(expectedId: nat)
      requires Valid()
      modifies this
      ensures Valid() && View() == AfterDisconnect(old(View()), expectedId)
      ensures
        if old(state).Connected? && old(state).handle.id == expectedId then
          && state.Disconnected? && version == old(version) + 1
          && cancelled == old(cancelled) + {old(state).handle.conn}
        else View() == old(View())
    {
      if state.Connected? && state.handle.id == expectedId {
        Shutdown(state.handle);
        state := Disconnected;
        SendIfModified();
      }
    }

    method SetReconnectingIfDisconnected() returns (claimed: bool)
      requires Valid()
      modifies this
      ensures Valid() && View() == AfterReconnectStart(old(View()))
      ensures claimed <==> old(state).Disconnected?
      ensures claimed ==> state.Reconnecting? && published.PublicReconnecting? && version == old(version) + 1
      ensures cancelled == old(cancelled) && (!claimed ==> View() == old(View()))
    {
      claimed := state.Disconnected?;
      if claimed {
        state := Reconnecting;
        SendIfModified();
      }
    }

    method SetDisconnectedIfReconnecting() returns (changed: bool)
      requires Valid()
      modifies this
      ensures Valid() && View() == AfterDialFailure(old(View()))
      ensures changed <==> old(state).Reconnecting?
      ensures changed ==> state.Disconnected? && published.PublicDisconnected? && version == old(version) + 1
      ensures cancelled == old(cancelled) && (!changed ==> View() == old(View()))
    {
      changed := state.Reconnecting?;
      if changed {
        state := Disconnected;
        SendIfModified();
      }
    }
  }
}
