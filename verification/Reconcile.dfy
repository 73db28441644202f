/** Reconciliation of the workspace manifest with a server listing
    (internal/commands/workspace_sync.go, internal/cache/manifest.go): push, pull and add
    loops over snapshots of a map that they change. */
module Reconcile {
  import opened Options
  import opened Ordering

  datatype Entry = Entry(id: string, name: string, root: string, updatedAt: int, locallyModified: bool,
    pendingDelete: bool)

  datatype Workspace = Workspace(id: string, name: string, root: string)

  type Entries = map<string, Entry>

  datatype Call = DeleteWorkspace(id: string) | UpdateWorkspace(id: string, name: string, root: string)

  // ---- The manifest ---------------------------------------------------------

  ghost predicate Keyed(entries: Entries) { forall id :: id in entries ==> entries[id].id == id }

  /** All entries once, in whatever order. */
  ghost predicate IsSnapshot(all: seq<Entry>, entries: Entries) {
    && (forall i, j :: 0 <= i < j < |all| ==> all[i].id != all[j].id)
    && (forall e :: e in all <==> e.id in entries && entries[e.id] == e)
  }

  class WorkspaceManifest {
    var entries: Entries

    constructor (entries: Entries)
      requires Keyed(entries)
      ensures this.entries == entries
    {
      this.entries := entries;
    }

    method Get(id: string) returns (e: Option<Entry>)
      ensures e == if id in entries then Some(entries[id]) else None
    {
      e := if id in entries then Some(entries[id]) else None;
    }

    method Upsert(e: Entry)
      requires Keyed(entries)
      modifies this
      ensures entries == old(entries)[e.id := e] && Keyed(entries)
    {
      entries := entries[e.id := e];
    }

    method Remove(id: string)
      requires Keyed(entries)
      modifies this
      ensures entries == old(entries) - {id} && Keyed(entries)
    {
      entries := entries - {id};
    }

    /** `All`: a snapshot in the unspecified order of a Go map. */
    method All() returns (all: seq<Entry>)
      requires Keyed(entries)
      ensures IsSnapshot(all, entries)
    {
      all := [];
      var rest := entries.Keys;
      while rest != {}
        invariant rest <= entries.Keys
        invariant forall e :: e in all <==> e.id in entries.Keys - rest && entries[e.id] == e
        invariant forall i, j :: 0 <= i < j < |all| ==> all[i].id != all[j].id
      {
        var id :| id in rest;
        all := all + [entries[id]];
        rest := rest - {id};
      }
    }
  }

  // ---- What reconciliation means for one id ---------------------------------

  /** Timestamps are the wall clock's; everything else is determined. */
  function Timeless(e: Entry): (r: Entry)
    ensures r.id == e.id && r.name == e.name && r.root == e.root
    ensures r.locallyModified == e.locallyModified && r.pendingDelete == e.pendingDelete
  {
    e.(updatedAt := 0)
  }

  function Lookup(entries: Entries, id: string): Option<Entry> {
    if id in entries then Some(Timeless(entries[id])) else None
  }

  /** The entry after the push pass. */
  function Pushed(e: Option<Entry>): Option<Entry> {
    if e.None? || !e.value.locallyModified then e
    else if e.value.pendingDelete then None
    else Some(e.value.(locallyModified := false, pendingDelete := false))
  }

  /** A pushed deletion takes the entry out, any other pushed change only clears the two flags. */
  lemma PushedIs(e: Entry)
    ensures e.locallyModified && e.pendingDelete ==> Pushed(Some(e)) == None
    ensures e.locallyModified && !e.pendingDelete ==>
              Pushed(Some(e)) == Some(Entry(e.id, e.name, e.root, e.updatedAt, false, false))
    ensures !e.locallyModified ==> Pushed(Some(e)) == Some(e)
    ensures Pushed(None) == None
  {
  }

  /** `serverByID` keeps the last listed workspace of an id ... */
  function LastListed(list: seq<Workspace>, id: string): Option<Workspace> {
    if list == [] then None
    else
      var n := |list| - 1;
      if list[n].id == id then Some(list[n]) else LastListed(list[..n], id)
  }

  /** ... while the add pass takes the first one it meets. */
  function FirstListed(list: seq<Workspace>, id: string): Option<Workspace> {
    if list == [] then None
    else
      var n := |list| - 1;
      var before := FirstListed(list[..n], id);
      if before.Some? then before else if list[n].id == id then Some(list[n]) else None
  }

  /** Where an id is listed twice, that makes a difference. */
  lemma {:induction false} ListedAt(list: seq<Workspace>, i: nat)
    requires i < |list|
    ensures (forall j :: i < j < |list| ==> list[j].id != list[i].id) ==> LastListed(list, list[i].id) == Some(list[i])
    ensures (forall j :: 0 <= j < i ==> list[j].id != list[i].id) ==> FirstListed(list, list[i].id) == Some(list[i])
  {
    var n := |list| - 1;
    if i < n {
      ListedAt(list[..n], i);
      assert list[n].id == list[i].id || forall j :: i < j < n ==> list[..n][j] == list[j];
    } else {
      FirstListedId(list[..n], list[i].id);
    }
  }

  function FromServer(ws: Workspace): Entry { Entry(ws.id, ws.name, ws.root, 0, false, false) }

  function Pulled(e: Option<Entry>, srv: Option<Workspace>): Option<Entry> {
    if e.None? || srv.None? then None
    else if srv.value.name != e.value.name || srv.value.root != e.value.root then Some(FromServer(srv.value))
    else e
  }

  function WithAdded(e: Option<Entry>, srv: Option<Workspace>): Option<Entry> {
    if e.None? && srv.Some? then Some(FromServer(srv.value)) else e
  }

  /** The manifest entry of `id` after a successful reconciliation. */
  function Reconciled(before: Option<Entry>, list: seq<Workspace>, id: string): Option<Entry> {
    WithAdded(Pulled(Pushed(before), LastListed(list, id)), FirstListed(list, id))
  }

  function CallFor(e: Entry): Call
    requires e.locallyModified
  {
    if e.pendingDelete then DeleteWorkspace(e.id) else UpdateWorkspace(e.id, e.name, e.root)
  }

  /** The calls that the push pass makes for these entries, in order. */
  function CallsFor(all: seq<Entry>): seq<Call> {
    if all == [] then []
    else
      var n := |all| - 1;
      CallsFor(all[..n]) + if all[n].locallyModified then [CallFor(all[n])] else []
  }

  ghost predicate HasId(all: seq<Entry>, id: string) { exists i :: 0 <= i < |all| && all[i].id == id }

  // ---- The three passes -----------------------------------------------------

  /** Local changes go to the server.  On the first refused call the entries already handled
      stay handled and the rest is untouched. */
  method Push(m: WorkspaceManifest, all: seq<Entry>, accepts: Call -> bool)
    returns (failed: Option<Call>, calls: seq<Call>, ghost handled: nat)
    requires Keyed(m.entries) && IsSnapshot(all, m.entries)
    modifies m
    ensures Keyed(m.entries) && handled <= |all|
    ensures forall id :: Lookup(m.entries, id) ==
              if HasId(all[..handled], id) then Pushed(old(Lookup(m.entries, id))) else old(Lookup(m.entries, id))
    ensures failed.None? ==> handled == |all| && calls == CallsFor(all) && forall c :: c in calls ==> accepts(c)
    ensures failed.Some? ==>
              && handled < |all| && all[handled].locallyModified && failed.value == CallFor(all[handled])
              && calls == CallsFor(all[..handled]) + [failed.value]
              && !accepts(failed.value) && forall c :: c in CallsFor(all[..handled]) ==> accepts(c)
  {
    hide CallsFor, HasId;
    NothingHandled(all);
    calls := [];
    handled := 0;
    for i := 0 to |all|
      invariant Keyed(m.entries) && handled == i
      invariant forall id :: Lookup(m.entries, id) ==
                  if HasId(all[..i], id) then Pushed(old(Lookup(m.entries, id))) else old(Lookup(m.entries, id))
      invariant calls == CallsFor(all[..i]) && forall c :: c in calls ==> accepts(c)
    {
      var local := all[i];
      NextEntry(all, i);
      NotYetHandled(all, i);
      assert local in all;
      ghost var before := m.entries;
      assert Lookup(before, local.id) == Some(Timeless(local));
      if !local.locallyModified {
        handled := i + 1;
        continue;
      }
      if local.pendingDelete {
        var call := DeleteWorkspace(local.id);
        calls := calls + [call];
        if !accepts(call) {
          return Some(call), calls, i;
        }
        m.Remove(local.id);
      } else {
        var call := UpdateWorkspace(local.id, local.name, local.root);
        calls := calls + [call];
        if !accepts(call) {
          return Some(call), calls, i;
        }
        var now: int := *;
        m.Upsert(Entry(local.id, local.name, local.root, now, false, false));
      }
      forall id ensures Lookup(m.entries, id) == if id == local.id then Pushed(Some(Timeless(local)))
        else Lookup(before, id) {}
      handled := i + 1;
    }
    assert all[..|all|] == all;
    failed := None;
  }

  lemma NothingHandled(all: seq<Entry>)
    ensures CallsFor(all[..0]) == []
    ensures forall id :: !HasId(all[..0], id)
  {
  }

  lemma NotYetHandled(all: seq<Entry>, i: nat)
    requires i < |all| && forall x, y :: 0 <= x < y < |all| ==> all[x].id != all[y].id
    ensures !HasId(all[..i], all[i].id)
  {
  }

  lemma NextEntry(all: seq<Entry>, i: nat)
    requires i < |all|
    ensures CallsFor(all[..i + 1]) ==
              if all[i].locallyModified then CallsFor(all[..i]) + [CallFor(all[i])] else CallsFor(all[..i])
    ensures forall id :: HasId(all[..i + 1], id) <==> HasId(all[..i], id) || all[i].id == id
  {
    assert all[..i + 1][..i] == all[..i];
    forall id ensures HasId(all[..i + 1], id) <==> HasId(all[..i], id) || all[i].id == id {
      if HasId(all[..i], id) {
        var j :| 0 <= j < i && all[..i][j].id == id;
        assert all[..i + 1][j].id == id;
      }
      if all[i].id == id {
        assert all[..i + 1][i].id == id;
      }
    }
  }

  lemma SnapshotHas(all: seq<Entry>, entries: Entries, id: string)
    requires IsSnapshot(all, entries) && Keyed(entries)
    ensures HasId(all, id) <==> id in entries
  {
    if id in entries {
      assert entries[id] in all;
      var i :| 0 <= i < |all| && all[i] == entries[id];
    }
    if HasId(all, id) {
      var i :| 0 <= i < |all| && all[i].id == id;
      assert all[i] in all;
    }
  }

  lemma PulledEntry(e: Entry, srv: Option<Workspace>)
    ensures Pulled(Some(Timeless(e)), srv) ==
              if srv.None? then None
              else if srv.value.name != e.name || srv.value.root != e.root then Some(FromServer(srv.value))
              else Some(Timeless(e))
  {
  }

  lemma NothingPulled(srv: Option<Workspace>)
    ensures Pulled(None, srv) == None
  {
  }

  /** The listing decides names, root paths and deletions of the entries in the manifest. */
  method Pull(m: WorkspaceManifest, all: seq<Entry>, serverById: map<string, Workspace>, ghost list: seq<Workspace>)
    requires Keyed(m.entries) && IsSnapshot(all, m.entries)
    requires forall id :: LastListed(list, id) == if id in serverById then Some(serverById[id]) else None
    requires forall id :: id in serverById ==> serverById[id].id == id
    modifies m
    ensures Keyed(m.entries)
    ensures forall id :: Lookup(m.entries, id) == Pulled(old(Lookup(m.entries, id)), LastListed(list, id))
  {
    hide LastListed, HasId, Pulled;
    NothingHandled(all);
    for i := 0 to |all|
      invariant Keyed(m.entries)
      invariant forall id :: Lookup(m.entries, id) ==
                  if HasId(all[..i], id) then Pulled(old(Lookup(m.entries, id)), LastListed(list, id))
                  else old(Lookup(m.entries, id))
    {
      PulledEntry(all[i], LastListed(list, all[i].id));
      var local := all[i];
      NextEntry(all, i);
      NotYetHandled(all, i);
      assert local in all;
      ghost var before := m.entries;
      assert Lookup(before, local.id) == Some(Timeless(local));
      if local.id !in serverById {
        m.Remove(local.id);
        forall id ensures Lookup(m.entries, id) == if id == local.id then None else Lookup(before, id) {}
        continue;
      }
      var srv := serverById[local.id];
      if srv.name != local.name || srv.root != local.root {
        var now: int := *;
        m.Upsert(Entry(local.id, srv.name, srv.root, now, false, false));
        forall id ensures Lookup(m.entries, id) == if id == local.id then Some(FromServer(srv))
          else Lookup(before, id) {}
      }
    }
    assert all[..|all|] == all;
    forall id ensures Lookup(m.entries, id) == Pulled(old(Lookup(m.entries, id)), LastListed(list, id)) {
      SnapshotHas(all, old(m.entries), id);
      NothingPulled(LastListed(list, id));
    }
  }

  /** Listed workspaces that the manifest does not know yet. */
  method Add(m: WorkspaceManifest, list: seq<Workspace>)
    requires Keyed(m.entries)
    modifies m
    ensures Keyed(m.entries)
    ensures forall id :: Lookup(m.entries, id) == WithAdded(old(Lookup(m.entries, id)), FirstListed(list, id))
  {
    for i := 0 to |list|
      invariant Keyed(m.entries)
      invariant forall id :: Lookup(m.entries, id) == WithAdded(old(Lookup(m.entries, id)), FirstListed(list[..i], id))
    {
      var srv := list[i];
      assert list[..i + 1][..i] == list[..i];
      ghost var before := m.entries;
      FirstListedId(list[..i], srv.id);
      assert Lookup(before, srv.id) == WithAdded(old(Lookup(m.entries, srv.id)), FirstListed(list[..i], srv.id));
      var known := m.Get(srv.id);
      if known.None? {
        var now: int := *;
        m.Upsert(Entry(srv.id, srv.name, srv.root, now, false, false));
        forall id ensures Lookup(m.entries, id) == if id == srv.id then Some(FromServer(srv)) else Lookup(before, id) {}
      }
    }
    assert list[..|list|] == list;
  }

  lemma {:induction false} FirstListedId(list: seq<Workspace>, id: string)
    ensures FirstListed(list, id).Some? <==> exists ws :: ws in list && ws.id == id
    ensures LastListed(list, id).Some? <==> FirstListed(list, id).Some?
    ensures FirstListed(list, id).Some? ==> FirstListed(list, id).value in list && FirstListed(list, id).value.id == id
    ensures LastListed(list, id).Some? ==> LastListed(list, id).value in list && LastListed(list, id).value.id == id
  {
    if list != [] {
      var n := |list| - 1;
      FirstListedId(list[..n], id);
      assert list == list[..n] + [list[n]];
    }
  }

  /** `ReconcileWorkspaceManifest`. */
  method ReconcileWorkspaceManifest(m: WorkspaceManifest, list: seq<Workspace>, accepts: Call -> bool)
    returns (failed: Option<Call>, calls: seq<Call>, all: seq<Entry>)
    requires Keyed(m.entries)
    modifies m
    ensures Keyed(m.entries) && IsSnapshot(all, old(m.entries))
    ensures failed.None? ==>
              && calls == CallsFor(all)
              && (forall id :: Lookup(m.entries, id) == Reconciled(old(Lookup(m.entries, id)), list, id))
    ensures failed.None? && DistinctIds(list) ==>
              && (forall ws :: ws in list ==> ws.id in m.entries)
              && (forall id :: id in m.entries ==>
                    && Workspace(id, m.entries[id].name, m.entries[id].root) in list
                    && !m.entries[id].locallyModified)
    ensures failed.Some? ==>
              exists handled :: 0 <= handled < |all|
                && calls == CallsFor(all[..handled]) + [failed.value] && !accepts(failed.value)
                && forall id :: Lookup(m.entries, id) ==
                     if HasId(all[..handled], id) then Pushed(old(Lookup(m.entries, id)))
                       else old(Lookup(m.entries, id))
  {
    var serverById: map<string, Workspace> := map[];
    for i := 0 to |list|
      invariant forall id :: LastListed(list[..i], id) == if id in serverById then Some(serverById[id]) else None
      invariant forall id :: id in serverById ==> serverById[id].id == id
    {
      assert list[..i + 1][..i] == list[..i];
      serverById := serverById[list[i].id := list[i]];
    }
    assert list[..|list|] == list;
    all := m.All();
    ghost var handled;
    failed, calls, handled := Push(m, all, accepts);
    if failed.Some? {
      return;
    }
    assert all[..|all|] == all;
    forall id ensures Lookup(m.entries, id) == Pushed(old(Lookup(m.entries, id))) {
      SnapshotHas(all, old(m.entries), id);
    }
    var pushed := m.All();
    Pull(m, pushed, serverById, list);
    Add(m, list);
    if DistinctIds(list) {
      forall id ensures (id in m.entries <==> exists ws :: ws in list && ws.id == id)
                ensures id in m.entries ==>
                          && Workspace(id, m.entries[id].name, m.entries[id].root) in list
                          && !m.entries[id].locallyModified {
        assert Lookup(m.entries, id) == Reconciled(old(Lookup(m.entries, id)), list, id);
        ReconciledIsListing(old(Lookup(m.entries, id)), list, id);
      }
    }
  }

  // ---- Consequences ---------------------------------------------------------

  ghost predicate DistinctIds(list: seq<Workspace>) {
    forall i, j :: 0 <= i < j < |list| ==> list[i].id != list[j].id
  }

  /** With distinct ids in the listing, a reconciled manifest has exactly the listed ids, with
      their names and root paths, and nothing is left to push. */
  lemma ReconciledIsListing(before: Option<Entry>, list: seq<Workspace>, id: string)
    requires DistinctIds(list)
    requires before.Some? ==> before.value.id == id
    ensures var after := Reconciled(before, list, id);
            && (after.Some? <==> exists ws :: ws in list && ws.id == id)
            && (after.Some? ==>
                  && !after.value.locallyModified && after.value.id == id
                  && Workspace(id, after.value.name, after.value.root) in list
                  && (after.value.pendingDelete <==>
                        && before.Some? && before.value.pendingDelete && !before.value.locallyModified
                        && Workspace(id, before.value.name, before.value.root) in list))
  {
    FirstListedId(list, id);
    var first, last := FirstListed(list, id), LastListed(list, id);
    if first.Some? {
      var i, j :| 0 <= i < |list| && 0 <= j < |list| && list[i] == first.value && list[j] == last.value;
    }
  }

  /** A second reconciliation with the same listing changes nothing and makes no call. */
  lemma ReconcilingTwice(before: Option<Entry>, list: seq<Workspace>, id: string)
    requires DistinctIds(list)
    requires before.Some? ==> before.value.id == id
    ensures Reconciled(Reconciled(before, list, id), list, id) == Reconciled(before, list, id)
  {
    ReconciledIsListing(before, list, id);
    FirstListedId(list, id);
    var first, last := FirstListed(list, id), LastListed(list, id);
    if first.Some? {
      var i, j :| 0 <= i < |list| && 0 <= j < |list| && list[i] == first.value && list[j] == last.value;
    }
  }

  /** A locally modified entry asks for its deletion or for an update with its own name and root. */
  predicate AsksFor(e: Entry, c: Call) {
    && e.locallyModified
    && c == if e.pendingDelete then DeleteWorkspace(e.id) else UpdateWorkspace(e.id, e.name, e.root)
  }

  /** Some entry asks for this call. */
  ghost predicate Asked(all: seq<Entry>, c: Call) {
    exists i :: 0 <= i < |all| && AsksFor(all[i], c)
  }

  lemma AskedStep(all: seq<Entry>, last: Entry, c: Call)
    ensures Asked(all + [last], c) <==> Asked(all, c) || (last.locallyModified && CallFor(last) == c)
  {
    var longer := all + [last];
    if last.locallyModified && CallFor(last) == c {
      assert longer[|all|] == last;
    }
    if Asked(all, c) {
      var i :| 0 <= i < |all| && AsksFor(all[i], c);
      assert longer[i] == all[i];
    }
  }

  lemma NotAskedYet(all: seq<Entry>, n: nat)
    requires n < |all| && forall i, j :: 0 <= i < j < |all| ==> all[i].id != all[j].id
    requires all[n].locallyModified
    ensures !Asked(all[..n], CallFor(all[n]))
  {
  }

  /** Each modified entry causes exactly one call, and there are no others. */
  lemma {:induction false} CallsAreExact(all: seq<Entry>, n: nat, c: Call)
    requires n <= |all| && forall i, j :: 0 <= i < j < |all| ==> all[i].id != all[j].id
    ensures multiset(CallsFor(all[..n]))[c] == if Asked(all[..n], c) then 1 else 0
  {
    if n > 0 {
      hide CallsFor, CallFor, Asked, AsksFor;
      var init, last := all[..n - 1], all[n - 1];
      CallsAreExact(all, n - 1, c);
      NextEntry(all, n - 1);
      assert all[..n] == init + [last];
      AskedStep(init, last, c);
      if last.locallyModified {
        NotAskedYet(all, n - 1);
        AppendCounts(CallsFor(init), CallFor(last), c);
      }
    }
  }

  /** The iteration order of the map only permutes the calls; the manifest, by its contract,
      does not depend on it at all. */
  lemma CallOrderOnly(all1: seq<Entry>, all2: seq<Entry>, entries: Entries)
    requires IsSnapshot(all1, entries) && IsSnapshot(all2, entries)
    ensures multiset(CallsFor(all1)) == multiset(CallsFor(all2))
  {
    assert all1[..|all1|] == all1 && all2[..|all2|] == all2;
    forall c ensures multiset(CallsFor(all1))[c] == multiset(CallsFor(all2))[c] {
      CallsAreExact(all1, |all1|, c);
      CallsAreExact(all2, |all2|, c);
      SameAsked(all1, all2, c);
      SameAsked(all2, all1, c);
    }
  }

  lemma SameAsked(all1: seq<Entry>, all2: seq<Entry>, c: Call)
    requires forall e :: e in all1 ==> e in all2
    ensures Asked(all1, c) ==> Asked(all2, c)
  {
    if Asked(all1, c) {
      var i :| 0 <= i < |all1| && AsksFor(all1[i], c);
      assert all1[i] in all2;
      var j :| 0 <= j < |all2| && all2[j] == all1[i];
    }
  }

  // ---- The listing is older than the push -----------------------------------

  /** The server's answer to one accepted call. */
  function Serve(server: map<string, Workspace>, c: Call): map<string, Workspace> {
    match c
    case DeleteWorkspace(id) => server - {id}
    case UpdateWorkspace(id, name, root) => if id in server then server[id := Workspace(id, name, root)] else server
  }

  function ServeAll(server: map<string, Workspace>, calls: seq<Call>): map<string, Workspace> {
    if calls == [] then server else Serve(ServeAll(server, calls[..|calls| - 1]), calls[|calls| - 1])
  }

  ghost predicate Lists(list: seq<Workspace>, server: map<string, Workspace>) {
    DistinctIds(list) && forall ws :: ws in list <==> ws.id in server && server[ws.id] == ws
  }

  /** What the user wants for `id`: the local change if there is one, else the server's word. */
  function Intent(before: Option<Entry>, srv: Option<Workspace>): Option<Workspace> {
    if srv.None? || before.None? || !before.value.locallyModified then srv
    else if before.value.pendingDelete then None
    else Some(Workspace(srv.value.id, before.value.name, before.value.root))
  }

  function OnServer(server: map<string, Workspace>, id: string): Option<Workspace> {
    if id in server then Some(server[id]) else None
  }

  lemma {:induction false} ServeStep(all: seq<Entry>, n: nat, server: map<string, Workspace>)
    requires n < |all|
    ensures var before := ServeAll(server, CallsFor(all[..n]));
            ServeAll(server, CallsFor(all[..n + 1])) ==
              if all[n].locallyModified then Serve(before, CallFor(all[n])) else before
  {
    NextEntry(all, n);
    var calls := CallsFor(all[..n]);
    if all[n].locallyModified {
      assert (calls + [CallFor(all[n])])[..|calls|] == calls;
    }
  }

  lemma ServeNothing(all: seq<Entry>, server: map<string, Workspace>)
    ensures ServeAll(server, CallsFor(all[..0])) == server
  {
  }

  /** Serving the calls leaves workspaces without a manifest entry alone ... */
  lemma {:induction false} ServedUntouched(all: seq<Entry>, n: nat, server: map<string, Workspace>, id: string)
    requires n <= |all| && forall i :: 0 <= i < n ==> all[i].id != id
    ensures OnServer(ServeAll(server, CallsFor(all[..n])), id) == OnServer(server, id)
  {
    hide ServeAll, CallsFor;
    if n == 0 {
      ServeNothing(all, server);
    } else {
      ServedUntouched(all, n - 1, server, id);
      ServeStep(all, n - 1, server);
    }
  }

  /** ... and turns every other one into what the user wants. */
  lemma {:induction false} ServedIntent(all: seq<Entry>, n: nat, server: map<string, Workspace>, at: nat)
    requires at < n <= |all|
    requires forall i, j :: 0 <= i < j < |all| ==> all[i].id != all[j].id
    requires forall x :: x in server ==> server[x].id == x
    ensures OnServer(ServeAll(server, CallsFor(all[..n])), all[at].id) ==
        Intent(Some(all[at]), OnServer(server, all[at].id))
  {
    hide ServeAll, CallsFor;
    ServeStep(all, n - 1, server);
    if at < n - 1 {
      ServedIntent(all, n - 1, server, at);
    } else {
      ServedUntouched(all, at, server, all[at].id);
    }
  }

  /** A pushed rename is overwritten by the older listing, and a pushed deletion comes back. */
  lemma OldListingUndoesPush(before: Entry, list: seq<Workspace>, ws: Workspace)
    requires DistinctIds(list) && ws in list && before.id == ws.id && before.locallyModified
    ensures Reconciled(Some(before), list, ws.id).Some?
    ensures var after := Reconciled(Some(before), list, ws.id).value; after.name == ws.name && after.root == ws.root
  {
    ReconciledIsListing(Some(before), list, ws.id);
    var after := Reconciled(Some(before), list, ws.id).value;
    var i, j :| 0 <= i < |list| && 0 <= j < |list| && list[i] == ws
      && list[j] == Workspace(ws.id, after.name, after.root);
  }

  /** The entry is there exactly when it is wanted, with the wanted name and root path. */
  predicate Meets(e: Option<Entry>, want: Option<Workspace>) {
    && (e.Some? <==> want.Some?)
    && (e.Some? ==> e.value.name == want.value.name && e.value.root == want.value.root)
  }

  /** One reconciliation with a listing from before the push brings an entry to the local
      intent exactly when there was nothing to push for it: it is not modified, or not listed,
      or a modification that repeats what the listing says. */
  lemma OneRoundReachesIntentIff(before: Option<Entry>, server: map<string, Workspace>, list: seq<Workspace>,
                                 id: string)
    requires forall x :: x in server ==> server[x].id == x
    requires Lists(list, server) && (before.Some? ==> before.value.id == id)
    ensures Meets(Reconciled(before, list, id), Intent(before, OnServer(server, id))) <==>
              (id in server && before.Some? && before.value.locallyModified ==>
                 && !before.value.pendingDelete
                 && before.value.name == server[id].name && before.value.root == server[id].root)
  {
    hide Reconciled;
    ReconciledIsListing(before, list, id);
    if id in server {
      assert server[id] in list;
    }
  }

  /** One more reconciliation, with a listing taken after the calls were served, brings the
      manifest to the local intent. */
  lemma SecondRoundReachesIntent(entries: Entries, all: seq<Entry>, server: map<string, Workspace>,
                                 list1: seq<Workspace>, list2: seq<Workspace>, id: string)
    requires Keyed(entries) && IsSnapshot(all, entries)
    requires forall x :: x in server ==> server[x].id == x
    requires Lists(list1, server) && Lists(list2, ServeAll(server, CallsFor(all)))
    ensures var after := Reconciled(Reconciled(Lookup(entries, id), list1, id), list2, id);
            var intent := Intent(Lookup(entries, id), OnServer(server, id));
            && Meets(after, intent)
            && (after.Some? ==> !after.value.locallyModified)
  {
    hide Reconciled;
    var mid := Reconciled(Lookup(entries, id), list1, id);
    ReconciledKeepsId(Lookup(entries, id), list1, id);
    ReconciledIsListing(mid, list2, id);
    var server2 := ServeAll(server, CallsFor(all));
    assert all[..|all|] == all;
    SnapshotHas(all, entries, id);
    if HasId(all, id) {
      var at :| 0 <= at < |all| && all[at].id == id;
      ServedIntent(all, |all|, server, at);
      assert all[at] in all;
    } else {
      ServedUntouched(all, |all|, server, id);
    }
    hide ServeAll, CallsFor;
    assert OnServer(server2, id) == Intent(Lookup(entries, id), OnServer(server, id));
    if id in server2 {
      assert server2[id] in list2;
    }
  }

  lemma ReconciledKeepsId(before: Option<Entry>, list: seq<Workspace>, id: string)
    requires before.Some? ==> before.value.id == id
    ensures Reconciled(before, list, id).Some? ==> Reconciled(before, list, id).value.id == id
  {
    FirstListedId(list, id);
  }
}
