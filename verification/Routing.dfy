/** One manager per chat, and accepted connections routed to it, while calls of
    `handle_chat_manager` overlap at the loading of the repository. */
module Routing {
  import opened Options

  /** A handle given to a manager, as it was built or injected later. */
  datatype Route = Route(handle: nat, manager: nat)

  /** The map of managers, the routes decided so far, and how many managers were ever built. */
  datatype Table = Table(managers: map<nat, nat>, routes: seq<Route>, built: nat)

  function Routed(t: Table, handle: Option<nat>, manager: nat): Table {
    if handle.Some? then t.(routes := t.routes + [Route(handle.value, manager)]) else t
  }

  /** The map entry section: an existing manager gets the handle, a new one is built with it. */
  function Entered(t: Table, chat: nat, handle: Option<nat>): Table {
    if chat in t.managers then Routed(t, handle, t.managers[chat])
    else Routed(t.(managers := t.managers[chat := t.built], built := t.built + 1), handle, t.built)
  }

  class AppActor {
    var managers: map<nat, nat>
    var routes: seq<Route>
    var built: nat

    ghost function View(): Table
      reads this
    {
      Table(managers, routes, built)
    }

    constructor ()
      ensures View() == Table(map[], [], 0)
    {
      managers, routes, built := map[], [], 0;
    }

    /** The lookup before loading. */
    method Lookup(chat: nat, handle: Option<nat>) returns (manager: Option<nat>)
      modifies this
      ensures manager == if chat in old(managers) then Some(old(managers)[chat]) else None
      ensures View() == if chat in old(managers) then Entered(old(View()), chat, handle) else old(View())
      ensures managers == old(managers) && built == old(built)
      ensures routes == old(routes) +
        if manager.Some? && handle.Some? then [Route(handle.value, manager.value)] else []
    {
      manager := None;
      if chat in managers {
        if handle.Some? {
          routes := routes + [Route(handle.value, managers[chat])];
        }
        manager := Some(managers[chat]);
      }
    }

    /** The entry section after loading. */
    method Enter(chat: nat, handle: Option<nat>) returns (manager: nat)
      modifies this
      ensures View() == Entered(old(View()), chat, handle)
      ensures chat in managers && manager == managers[chat]
      ensures managers == if chat in old(managers) then old(managers) else old(managers)[chat := old(built)]
      ensures built == old(built) + if chat in old(managers) then 0 else 1
      ensures routes == old(routes) + if handle.Some? then [Route(handle.value, manager)] else []
    {
      if chat !in managers {
        managers := managers[chat := built];
        built := built + 1;
      }
      manager := managers[chat];
      if handle.Some? {
        routes := routes + [Route(handle.value, manager)];
      }
    }
  }

  // ----- overlapping calls

  datatype Phase = Looking | Loading | Returned(manager: nat) | Failed

  datatype Call = Call(chat: nat, handle: Option<nat>, phase: Phase)

  datatype App = App(table: Table, calls: map<nat, Call>)

  datatype Action =
    | Begin(id: nat, chat: nat, handle: Option<nat>)
    | Look(id: nat)
    | LoadFails(id: nat)
    | LoadEnds(id: nat)

  ghost predicate Enabled(s: App, a: Action) {
    match a
    case Begin(id, chat, handle) =>
      id !in s.calls && (handle.Some? ==> forall j :: j in s.calls ==> s.calls[j].handle != handle)
    case Look(id) => id in s.calls && s.calls[id].phase.Looking?
    case LoadFails(id) => id in s.calls && s.calls[id].phase.Loading?
    case LoadEnds(id) => id in s.calls && s.calls[id].phase.Loading?
  }

  function Returns(s: App, id: nat): App
    requires id in s.calls
  {
    var c := s.calls[id];
    var t := Entered(s.table, c.chat, c.handle);
    App(t, s.calls[id := c.(phase := Returned(t.managers[c.chat]))])
  }

  function Apply(s: App, a: Action): App
    requires Enabled(s, a)
  {
    match a
    case Begin(id, chat, handle) => s.(calls := s.calls[id := Call(chat, handle, Looking)])
    case Look(id) =>
      if s.calls[id].chat in s.table.managers then Returns(s, id)
      else s.(calls := s.calls[id := s.calls[id].(phase := Loading)])
    case LoadFails(id) => s.(calls := s.calls[id := s.calls[id].(phase := Failed)])
    case LoadEnds(id) => Returns(s, id)
  }

  ghost predicate Run(acts: seq<Action>, trace: seq<App>) {
    && |trace| == |acts| + 1 && trace[0] == App(Table(map[], [], 0), map[])
    && forall i :: 0 <= i < |acts| ==> Enabled(trace[i], acts[i]) && trace[i + 1] == Apply(trace[i], acts[i])
  }

  /** Every chat has a manager of its own, and nothing else was built. */
  ghost predicate ManagersOk(t: Table) {
    && |t.managers| == t.built
    && (forall c :: c in t.managers ==> t.managers[c] < t.built)
    && (forall c, d :: c in t.managers && d in t.managers && t.managers[c] == t.managers[d] ==> c == d)
  }

  ghost predicate CallOk(t: Table, c: Call) {
    && (c.phase.Returned? ==> c.chat in t.managers && t.managers[c.chat] == c.phase.manager)
    && (c.handle.Some? && c.phase.Returned? ==> Route(c.handle.value, c.phase.manager) in t.routes)
  }

  ghost predicate CallsOk(s: App) {
    && (forall j :: j in s.calls ==> CallOk(s.table, s.calls[j]))
    && (forall j, k :: j in s.calls && k in s.calls && j != k && s.calls[j].handle.Some?
          ==> s.calls[j].handle != s.calls[k].handle)
  }

  /** The handle is that of a call that has returned. */
  ghost predicate Delivered(s: App, handle: nat) {
    exists j :: j in s.calls && s.calls[j].handle == Some(handle) && s.calls[j].phase.Returned?
  }

  ghost predicate RoutesOk(s: App) {
    && (forall r :: r in s.table.routes ==> Delivered(s, r.handle))
    && (forall i, k :: 0 <= i < k < |s.table.routes| ==> s.table.routes[i].handle != s.table.routes[k].handle)
  }

  ghost predicate Inv(s: App) {
    ManagersOk(s.table) && CallsOk(s) && RoutesOk(s)
  }

  ghost predicate Grown(t: Table, t': Table) {
    && (forall c :: c in t.managers ==> c in t'.managers && t'.managers[c] == t.managers[c])
    && t.routes <= t'.routes
  }

  lemma EntryKeepsManagers(t: Table, chat: nat, handle: Option<nat>)
    requires ManagersOk(t)
    ensures ManagersOk(Entered(t, chat, handle)) && Grown(t, Entered(t, chat, handle))
  {
  }

  lemma ReturnsCalls(s: App, id: nat)
    requires Inv(s) && id in s.calls && !s.calls[id].phase.Returned?
    ensures CallsOk(Returns(s, id))
  {
    var s' := Returns(s, id);
    var c := s.calls[id];
    EntryKeepsManagers(s.table, c.chat, c.handle);
    assert CallOk(s'.table, s'.calls[id]);
    forall j | j in s'.calls && j != id
      ensures CallOk(s'.table, s'.calls[j])
    {
      assert CallOk(s.table, s.calls[j]);
    }
  }

  lemma DeliveredStays(s: App, s': App, handle: nat)
    requires Delivered(s, handle)
    requires forall j :: j in s.calls && s.calls[j].phase.Returned? ==> j in s'.calls && s'.calls[j] == s.calls[j]
    ensures Delivered(s', handle)
  {
    var j :| j in s.calls && s.calls[j].handle == Some(handle) && s.calls[j].phase.Returned?;
    assert s'.calls[j] == s.calls[j];
  }

  lemma ReturnsRoutes(s: App, id: nat)
    requires CallsOk(s) && RoutesOk(s) && id in s.calls && !s.calls[id].phase.Returned?
    ensures RoutesOk(Returns(s, id))
  {
    var s' := Returns(s, id);
    var c := s.calls[id];
    forall r | r in s.table.routes
      ensures Delivered(s', r.handle) && c.handle != Some(r.handle)
    {
      var j :| j in s.calls && s.calls[j].handle == Some(r.handle) && s.calls[j].phase.Returned?;
      DeliveredStays(s, s', r.handle);
    }
    if c.handle.Some? {
      assert s'.calls[id].handle == Some(c.handle.value);
      assert Delivered(s', c.handle.value);
      assert forall i :: 0 <= i < |s.table.routes| ==> s.table.routes[i] in s.table.routes;
    }
  }

  lemma StepKeeps(s: App, a: Action)
    requires Inv(s) && Enabled(s, a)
    ensures Inv(Apply(s, a)) && Grown(s.table, Apply(s, a).table)
  {
    if a.LoadEnds? || (a.Look? && s.calls[a.id].chat in s.table.managers) {
      EntryKeepsManagers(s.table, s.calls[a.id].chat, s.calls[a.id].handle);
      ReturnsCalls(s, a.id);
      ReturnsRoutes(s, a.id);
    } else {
      forall r | r in s.table.routes
        ensures Delivered(Apply(s, a), r.handle)
      {
        DeliveredStays(s, Apply(s, a), r.handle);
      }
    }
  }

  lemma {:induction false} RunKeepsInv(acts: seq<Action>, trace: seq<App>, n: nat)
    requires Run(acts, trace) && n < |trace|
    ensures Inv(trace[n])
  {
    if n > 0 {
      RunKeepsInv(acts, trace, n - 1);
      StepKeeps(trace[n - 1], acts[n - 1]);
    }
  }

  lemma TablesGrow(acts: seq<Action>, trace: seq<App>, n: nat)
    requires Run(acts, trace) && n < |acts|
    ensures Grown(trace[n].table, trace[n + 1].table)
  {
    RunKeepsInv(acts, trace, n);
    StepKeeps(trace[n], acts[n]);
  }

  /** A chat keeps its manager for the rest of the run. */
  lemma {:induction false} ManagerNeverReplaced(acts: seq<Action>, trace: seq<App>, m: nat, n: nat, chat: nat)
    requires Run(acts, trace) && m <= n < |trace| && chat in trace[m].table.managers
    ensures chat in trace[n].table.managers
    ensures trace[n].table.managers[chat] == trace[m].table.managers[chat]
  {
    if m < n {
      ManagerNeverReplaced(acts, trace, m, n - 1, chat);
      TablesGrow(acts, trace, n - 1);
    }
  }

  /** In every run, a call for a chat that has a manager when it looks returns that manager at once; a
      call that has to load returns the manager its chat has got meanwhile, or the next one built. */
  lemma CallsReturn(acts: seq<Action>, trace: seq<App>, i: nat)
    requires Run(acts, trace) && i < |acts| && (acts[i].Look? || acts[i].LoadEnds?)
    ensures
      var s, s', id := trace[i], trace[i + 1], acts[i].id;
      var chat := s.calls[id].chat;
      && id in s'.calls && s'.calls[id].chat == chat && s'.calls[id].handle == s.calls[id].handle
      && s'.calls[id].phase ==
           (if chat in s.table.managers then Returned(s.table.managers[chat])
            else if acts[i].Look? then Loading
            else Returned(s.table.built))
  {
    assert trace[i + 1] == Apply(trace[i], acts[i]);
  }

  /** However calls overlap: one manager is built per chat, a returned call has the manager of its
      chat, and its handle is routed exactly once, to that manager; other handles are not routed. */
  lemma HandlesRoutedOnce(acts: seq<Action>, trace: seq<App>, n: nat, id: nat)
    requires Run(acts, trace) && n < |trace| && id in trace[n].calls
    ensures trace[n].table.built == |trace[n].table.managers|
    ensures
      var c, t := trace[n].calls[id], trace[n].table;
      && (c.phase.Returned? ==> c.chat in t.managers && t.managers[c.chat] == c.phase.manager)
      && (c.handle.Some? ==>
            forall m :: Route(c.handle.value, m) in t.routes <==> c.phase == Returned(m))
      && (forall i, k :: 0 <= i < k < |t.routes| ==> t.routes[i].handle != t.routes[k].handle)
  {
    RunKeepsInv(acts, trace, n);
    var s := trace[n];
    var c := s.calls[id];
    assert CallOk(s.table, c);
    if c.handle.Some? {
      forall m | Route(c.handle.value, m) in s.table.routes
        ensures c.phase == Returned(m)
      {
        assert Delivered(s, c.handle.value);
        var j :| j in s.calls && s.calls[j].handle == c.handle && s.calls[j].phase.Returned?;
        assert j == id;
        var i :| 0 <= i < |s.table.routes| && s.table.routes[i] == Route(c.handle.value, m);
        var k :| 0 <= k < |s.table.routes| && s.table.routes[k] == Route(c.handle.value, c.phase.manager);
      }
    }
  }
}
