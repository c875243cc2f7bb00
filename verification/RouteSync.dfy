/** Route frames to DUMMY_IP_ROUTE_MAP and LOCAL_WORKLOADS (src/routes/table.rs and
    `run_routes_watch` in src/wiring.rs). Both tables share one list of mutations, in which
    their insertions are interleaved; a failed write stops both. */
module RouteSync {
  import opened Base
  import opened KernelTables

  const ROUTE_MAX: nat := 262144
  const LOCAL_MAX: nat := 1024

  datatype Fingerprint = Fingerprint(bytes: Bytes)

  datatype HostOrderIpv4 = HostOrderIpv4(value: u32)

  datatype SpiffeId = SpiffeId(trustDomain: string, tenant: string, kind: string, name: string)

  /** SPIFFE and role parsing, the fingerprint hash and the byte-order conversion are library
      code: any functions will do. */
  datatype Env = Env(
    own: SpiffeId,
    parseId: string -> Option<SpiffeId>,
    parseRole: string -> Option<string>,
    fingerprint: (SpiffeId, Option<string>) -> Fingerprint,
    hostOrder: u32 -> HostOrderIpv4)

  datatype RouteEntry = RouteEntry(destinationSvid: string, destinationRole: string, targetAgentSvid: string,
    dummyIp: u32)

  datatype RouteValue = RouteValue(dstFp: Fingerprint, agentFp: Fingerprint, sagVersion: u64)

  datatype Resolved = Resolved(key: HostOrderIpv4, value: RouteValue, here: bool)

  /** An empty role is the absent role; a role or either identity may fail to parse. */
  function Resolve(env: Env, e: RouteEntry, version: u64): Option<Resolved> {
    var dst, agent := env.parseId(e.destinationSvid), env.parseId(e.targetAgentSvid);
    var role := if e.destinationRole == "" then None else env.parseRole(e.destinationRole);
    if dst.None? || agent.None? || (role.None? && e.destinationRole != "") then None
    else
      var value := RouteValue(env.fingerprint(dst.value, role), env.fingerprint(agent.value, None), version);
      Some(Resolved(env.hostOrder(e.dummyIp), value, agent.value == env.own))
  }

  function ResolveAll(env: Env, routes: seq<RouteEntry>, version: u64): (r: Option<seq<Resolved>>)
    ensures r.Some? ==> |r.value| == |routes| && forall i | 0 <= i < |routes| ::
              Resolve(env, routes[i], version) == Some(r.value[i])
    ensures r.None? ==> exists i | 0 <= i < |routes| :: Resolve(env, routes[i], version).None?
  {
    if routes == [] then Some([])
    else
      var n := |routes| - 1;
      var before, last := ResolveAll(env, routes[..n], version), Resolve(env, routes[n], version);
      if before.None? || last.None? then None else Some(before.value + [last.value])
  }

  /** The rows a frame wants in DUMMY_IP_ROUTE_MAP. */
  function RouteRows(rs: seq<Resolved>): seq<(HostOrderIpv4, RouteValue)> {
    if rs == [] then [] else RouteRows(rs[..|rs| - 1]) + [(rs[|rs| - 1].key, rs[|rs| - 1].value)]
  }

  /** The rows a frame wants in LOCAL_WORKLOADS: destinations targeted at this node. */
  function LocalRows(rs: seq<Resolved>): seq<(Fingerprint, int)> {
    if rs == [] then []
    else LocalRows(rs[..|rs| - 1]) + if rs[|rs| - 1].here then [(rs[|rs| - 1].value.dstFp, 1)] else []
  }

  // ---------------------------------------------------------------- the mutation list

  datatype Mutation =
    | InsertRoute(key: HostOrderIpv4, value: RouteValue)
    | DeleteRoute(key: HostOrderIpv4)
    | AddLocalWorkload(fingerprint: Fingerprint)
    | RemoveLocalWorkload(fingerprint: Fingerprint)

  function RouteWrite(m: Mutation): seq<Write<HostOrderIpv4, RouteValue>> {
    match m
    case InsertRoute(k, v) => [Ins(k, v)]
    case DeleteRoute(k) => [Del(k)]
    case _ => []
  }

  function LocalWrite(m: Mutation): seq<Write<Fingerprint, int>> {
    match m
    case AddLocalWorkload(fp) => [Ins(fp, 1)]
    case RemoveLocalWorkload(fp) => [Del(fp)]
    case _ => []
  }

  function RouteWrites(ms: seq<Mutation>): seq<Write<HostOrderIpv4, RouteValue>> {
    if ms == [] then [] else RouteWrites(ms[..|ms| - 1]) + RouteWrite(ms[|ms| - 1])
  }

  function LocalWrites(ms: seq<Mutation>): seq<Write<Fingerprint, int>> {
    if ms == [] then [] else LocalWrites(ms[..|ms| - 1]) + LocalWrite(ms[|ms| - 1])
  }

  function Addition(r: Resolved, keys: set<HostOrderIpv4>, locals: set<Fingerprint>): seq<Mutation> {
    (if r.key in keys then [] else [InsertRoute(r.key, r.value)]) +
    (if !r.here || r.value.dstFp in locals then [] else [AddLocalWorkload(r.value.dstFp)])
  }

  /** Entry by entry: a route not mirrored, then a local fingerprint not mirrored. */
  function Additions(rs: seq<Resolved>, keys: set<HostOrderIpv4>, locals: set<Fingerprint>): seq<Mutation> {
    if rs == [] then [] else Additions(rs[..|rs| - 1], keys, locals) + Addition(rs[|rs| - 1], keys, locals)
  }

  function RouteDeletions(order: seq<HostOrderIpv4>): seq<Mutation> {
    if order == [] then [] else RouteDeletions(order[..|order| - 1]) + [DeleteRoute(order[|order| - 1])]
  }

  function LocalDeletions(order: seq<Fingerprint>): seq<Mutation> {
    if order == [] then [] else LocalDeletions(order[..|order| - 1]) + [RemoveLocalWorkload(order[|order| - 1])]
  }

  function Mutations(rs: seq<Resolved>, keys: set<HostOrderIpv4>, locals: set<Fingerprint>,
                     routeOrder: seq<HostOrderIpv4>, localOrder: seq<Fingerprint>): seq<Mutation> {
    Additions(rs, keys, locals) + RouteDeletions(routeOrder) + LocalDeletions(localOrder)
  }

  /** Entries are added in the order of the frame, for each the route before the local workload,
      and only what is not mirrored. */
  lemma {:induction false} AdditionsInOrder(rs: seq<Resolved>, keys: set<HostOrderIpv4>, locals: set<Fingerprint>,
                                            i: nat)
    requires i < |rs|
    ensures var r, before := rs[i], Additions(rs[..i], keys, locals);
            var upto := Additions(rs[..i + 1], keys, locals);
            var newRoute, newLocal := r.key !in keys, r.here && r.value.dstFp !in locals;
            && before <= upto <= Additions(rs, keys, locals)
            && |upto| == |before| + (if newRoute then 1 else 0) + (if newLocal then 1 else 0)
            && (newRoute ==> upto[|before|] == InsertRoute(r.key, r.value))
            && (newLocal ==> upto[|upto| - 1] == AddLocalWorkload(r.value.dstFp))
  {
    var n := |rs| - 1;
    assert rs[..i + 1][..i] == rs[..i];
    if i < n {
      AdditionsInOrder(rs[..n], keys, locals, i);
      assert rs[..n][..i] == rs[..i] && rs[..n][..i + 1] == rs[..i + 1];
    } else {
      assert rs[..i + 1] == rs;
    }
  }

  predicate IsDeletion(m: Mutation) { m.DeleteRoute? || m.RemoveLocalWorkload? }

  /** Nothing is added after a removal, and no route is removed after a local workload. */
  lemma RemovalsLast(rs: seq<Resolved>, keys: set<HostOrderIpv4>, locals: set<Fingerprint>,
                     routeOrder: seq<HostOrderIpv4>, localOrder: seq<Fingerprint>, i: nat, j: nat)
    requires i < j < |Mutations(rs, keys, locals, routeOrder, localOrder)|
    ensures var ms := Mutations(rs, keys, locals, routeOrder, localOrder);
            (IsDeletion(ms[i]) ==> IsDeletion(ms[j])) && (ms[i].RemoveLocalWorkload? ==> ms[j].RemoveLocalWorkload?)
  {
    hide Additions, RouteDeletions, LocalDeletions;
    OnlyAdditions(rs, keys, locals);
    OnlyRouteDeletions(routeOrder);
    OnlyLocalDeletions(localOrder);
    var a, b, c := Additions(rs, keys, locals), RouteDeletions(routeOrder), LocalDeletions(localOrder);
    forall k | 0 <= k < |a + b + c|
      ensures if k < |a| then !IsDeletion((a + b + c)[k])
              else if k < |a + b| then (a + b + c)[k].DeleteRoute? else (a + b + c)[k].RemoveLocalWorkload?
    {
      if k < |a| {
        assert a[k] in a;
      } else if k < |a + b| {
        assert b[k - |a|] in b;
      } else {
        assert c[k - |a + b|] in c;
      }
    }
  }

  lemma {:induction false} OnlyAdditions(rs: seq<Resolved>, keys: set<HostOrderIpv4>, locals: set<Fingerprint>)
    ensures forall m | m in Additions(rs, keys, locals) :: !IsDeletion(m)
  {
    if rs != [] { OnlyAdditions(rs[..|rs| - 1], keys, locals); }
  }

  lemma {:induction false} OnlyRouteDeletions(order: seq<HostOrderIpv4>)
    ensures forall m | m in RouteDeletions(order) :: m.DeleteRoute?
  {
    if order != [] { OnlyRouteDeletions(order[..|order| - 1]); }
  }

  lemma {:induction false} OnlyLocalDeletions(order: seq<Fingerprint>)
    ensures forall m | m in LocalDeletions(order) :: m.RemoveLocalWorkload?
  {
    if order != [] { OnlyLocalDeletions(order[..|order| - 1]); }
  }

  lemma WritesAppend(a: seq<Mutation>, b: seq<Mutation>)
    ensures RouteWrites(a + b) == RouteWrites(a) + RouteWrites(b) &&
              LocalWrites(a + b) == LocalWrites(a) + LocalWrites(b)
  {
    RouteWritesAppend(a, b);
    LocalWritesAppend(a, b);
  }

  lemma {:induction false} RouteWritesAppend(a: seq<Mutation>, b: seq<Mutation>)
    ensures RouteWrites(a + b) == RouteWrites(a) + RouteWrites(b)
  {
    hide RouteWrite;
    if b == [] {
      assert a + b == a;
    } else {
      assert (a + b)[..|a + b| - 1] == a + b[..|b| - 1];
      RouteWritesAppend(a, b[..|b| - 1]);
    }
  }

  lemma {:induction false} LocalWritesAppend(a: seq<Mutation>, b: seq<Mutation>)
    ensures LocalWrites(a + b) == LocalWrites(a) + LocalWrites(b)
  {
    hide LocalWrite;
    if b == [] {
      assert a + b == a;
    } else {
      assert (a + b)[..|a + b| - 1] == a + b[..|b| - 1];
      LocalWritesAppend(a, b[..|b| - 1]);
    }
  }

  lemma OneWrite(m: Mutation)
    ensures RouteWrites([m]) == RouteWrite(m) && LocalWrites([m]) == LocalWrite(m)
  {
    assert [m][..0] == [];
  }

  /** Seen from either table, the interleaved list is that table's own key diff. */
  lemma MutationsByTable(rs: seq<Resolved>, keys: set<HostOrderIpv4>, locals: set<Fingerprint>,
                         routeOrder: seq<HostOrderIpv4>, localOrder: seq<Fingerprint>)
    ensures var ms := Mutations(rs, keys, locals, routeOrder, localOrder);
            RouteWrites(ms) == Diff(RouteRows(rs), keys, routeOrder) &&
              LocalWrites(ms) == Diff(LocalRows(rs), locals, localOrder)
  {
    hide RouteWrites, LocalWrites, Additions, RouteDeletions, LocalDeletions, Inserts, Deletes;
    var a, b, c := Additions(rs, keys, locals), RouteDeletions(routeOrder), LocalDeletions(localOrder);
    AdditionsByTable(rs, keys, locals);
    RouteDeletionsByTable(routeOrder);
    LocalDeletionsByTable(localOrder);
    WritesAppend(a + b, c);
    WritesAppend(a, b);
    assert Inserts(LocalRows(rs), locals) + [] == Inserts(LocalRows(rs), locals);
    assert Diff(RouteRows(rs), keys, routeOrder) + [] == Diff(RouteRows(rs), keys, routeOrder);
  }

  lemma {:induction false} AdditionsByTable(rs: seq<Resolved>, keys: set<HostOrderIpv4>, locals: set<Fingerprint>)
    ensures RouteWrites(Additions(rs, keys, locals)) == Inserts(RouteRows(rs), keys)
    ensures LocalWrites(Additions(rs, keys, locals)) == Inserts(LocalRows(rs), locals)
  {
    hide RouteWrites, LocalWrites, Addition, Inserts;
    if rs == [] {
      NoAdditions(keys, locals);
    } else {
      var init, r := rs[..|rs| - 1], rs[|rs| - 1];
      AdditionsByTable(init, keys, locals);
      WritesAppend(Additions(init, keys, locals), Addition(r, keys, locals));
      AdditionByTable(r, keys, locals);
      InsertsOfOne(RouteRows(init), (r.key, r.value), keys);
      if r.here {
        InsertsOfOne(LocalRows(init), (r.value.dstFp, 1), locals);
      } else {
        assert LocalRows(init) + [] == LocalRows(init);
      }
    }
  }

  lemma NoAdditions(keys: set<HostOrderIpv4>, locals: set<Fingerprint>)
    ensures RouteWrites([]) == Inserts([], keys) && LocalWrites([]) == Inserts([], locals)
  {
  }

  lemma AdditionByTable(r: Resolved, keys: set<HostOrderIpv4>, locals: set<Fingerprint>)
    ensures RouteWrites(Addition(r, keys, locals)) == if r.key in keys then [] else [Ins(r.key, r.value)]
    ensures LocalWrites(Addition(r, keys, locals)) == if !r.here || r.value.dstFp in locals then []
              else [Ins(r.value.dstFp, 1)]
  {
    hide RouteWrites, LocalWrites;
    var x: seq<Mutation> := if r.key in keys then [] else [InsertRoute(r.key, r.value)];
    var y: seq<Mutation> := if !r.here || r.value.dstFp in locals then [] else [AddLocalWorkload(r.value.dstFp)];
    WritesAppend(x, y);
    NoAdditions(keys, locals);
    OneWrite(InsertRoute(r.key, r.value));
    OneWrite(AddLocalWorkload(r.value.dstFp));
  }

  lemma InsertsOfOne<K, V>(rows: seq<(K, V)>, e: (K, V), mirror: set<K>)
    ensures Inserts(rows + [e], mirror) == Inserts(rows, mirror) + if e.0 in mirror then [] else [Ins(e.0, e.1)]
  {
    assert (rows + [e])[..|rows|] == rows;
  }

  lemma {:induction false} RouteDeletionsByTable(order: seq<HostOrderIpv4>)
    ensures RouteWrites(RouteDeletions(order)) == Deletes(order) && LocalWrites(RouteDeletions(order)) == []
  {
    if order != [] {
      var init, k := order[..|order| - 1], order[|order| - 1];
      RouteDeletionsByTable(init);
      WritesAppend(RouteDeletions(init), [DeleteRoute(k)]);
      OneWrite(DeleteRoute(k));
    }
  }

  lemma {:induction false} LocalDeletionsByTable(order: seq<Fingerprint>)
    ensures LocalWrites(LocalDeletions(order)) == Deletes(order) && RouteWrites(LocalDeletions(order)) == []
  {
    if order != [] {
      var init, k := order[..|order| - 1], order[|order| - 1];
      LocalDeletionsByTable(init);
      WritesAppend(LocalDeletions(init), [RemoveLocalWorkload(k)]);
      OneWrite(RemoveLocalWorkload(k));
    }
  }

  // ---------------------------------------------------------------- writing both tables

  datatype Tables = Tables(routes: map<HostOrderIpv4, RouteValue>, locals: map<Fingerprint, int>)

  function WriteRoute(t: Tables, w: Write<HostOrderIpv4, RouteValue>): Option<Tables> {
    var routes := Put(t.routes, ROUTE_MAX, w);
    if routes.Some? then Some(t.(routes := routes.value)) else None
  }

  function WriteLocal(t: Tables, w: Write<Fingerprint, int>): Option<Tables> {
    var locals := Put(t.locals, LOCAL_MAX, w);
    if locals.Some? then Some(t.(locals := locals.value)) else None
  }

  function WriteOne(t: Tables, m: Mutation): Option<Tables> {
    match m
    case InsertRoute(k, v) => WriteRoute(t, Ins(k, v))
    case DeleteRoute(k) => WriteRoute(t, Del(k))
    case AddLocalWorkload(fp) => WriteLocal(t, Ins(fp, 1))
    case RemoveLocalWorkload(fp) => WriteLocal(t, Del(fp))
  }

  function WriteAll(t: Tables, ms: seq<Mutation>, budget: nat): (Tables, bool) {
    if ms == [] then (t, true)
    else
      var (u, ok) := WriteAll(t, ms[..|ms| - 1], budget);
      var next := WriteOne(u, ms[|ms| - 1]);
      if ok && |ms| <= budget && next.Some? then (next.value, true) else (u, false)
  }

  /** Writing comes to carrying out the first so many mutations and no other; it stops at one that
      fails of itself or that the budget does not reach. */
  lemma {:induction false} WritesPrefix(t: Tables, ms: seq<Mutation>, budget: nat) returns (k: nat)
    ensures k <= |ms| && k <= budget && WriteAll(t, ms[..k], k) == (WriteAll(t, ms, budget).0, true)
    ensures WriteAll(t, ms, budget).1 <==> k == |ms|
    ensures k < |ms| ==> k == budget || WriteOne(WriteAll(t, ms, budget).0, ms[k]).None?
  {
    hide WriteOne;
    if ms == [] {
      k := 0;
    } else {
      var n := |ms| - 1;
      k := WritesPrefix(t, ms[..n], budget);
      assert ms[..n][..k] == ms[..k];
      if WriteAll(t, ms, budget).1 {
        k := n + 1;
        assert ms[..k] == ms;
        SameWithin(t, ms, budget, k);
      }
    }
  }

  lemma {:induction false} SameWithin(t: Tables, ms: seq<Mutation>, a: nat, b: nat)
    requires |ms| <= a && |ms| <= b
    ensures WriteAll(t, ms, a) == WriteAll(t, ms, b)
  {
    if ms != [] { SameWithin(t, ms[..|ms| - 1], a, b); }
  }

  lemma {:induction false} BudgetBeyond<K, V>(t: map<K, V>, cap: nat, ws: seq<Write<K, V>>, a: nat, b: nat)
    requires |ws| <= a && |ws| <= b
    ensures PutAll(t, cap, ws, a) == PutAll(t, cap, ws, b)
  {
    if ws != [] { BudgetBeyond(t, cap, ws[..|ws| - 1], a, b); }
  }

  /** All writes to a table go through when only its own contents can stop them. */
  ghost predicate Writable<K, V>(t: map<K, V>, cap: nat, ws: seq<Write<K, V>>) { PutAll(t, cap, ws, |ws|).1 }

  /** `routeBudget` and `localBudget` tell how far the interleaved writing got in each table. */
  ghost predicate Reached(t: Tables, ms: seq<Mutation>, budget: nat, routeBudget: nat, localBudget: nat) {
    var (u, ok) := WriteAll(t, ms, budget);
    && routeBudget <= |RouteWrites(ms)| && localBudget <= |LocalWrites(ms)|
    && u.routes == PutAll(t.routes, ROUTE_MAX, RouteWrites(ms), routeBudget).0
    && u.locals == PutAll(t.locals, LOCAL_MAX, LocalWrites(ms), localBudget).0
    && (ok ==> routeBudget == |RouteWrites(ms)| && localBudget == |LocalWrites(ms)|)
  }

  /** Interleaving two tables' writes comes to writing each table on its own, up to a stop. */
  lemma {:induction false} WrittenByTable(t: Tables, ms: seq<Mutation>, budget: nat)
    returns (routeBudget: nat, localBudget: nat)
    ensures Reached(t, ms, budget, routeBudget, localBudget)
    ensures WriteAll(t, ms, budget).1 <==> |ms| <= budget && BothWritable(t, ms)
  {
    hide PutAll, RouteWrites, LocalWrites, Writable, Put;
    if ms == [] {
      NothingWritten(t, budget);
      routeBudget, localBudget := 0, 0;
    } else {
      var init, m := ms[..|ms| - 1], ms[|ms| - 1];
      routeBudget, localBudget := WrittenByTable(t, init, budget);
      var ok := WriteAll(t, ms, budget).1;
      LastWrites(ms);
      if m.InsertRoute? || m.DeleteRoute? {
        TableStep(t.routes, ROUTE_MAX, RouteWrites(init), RouteWrite(m)[0], routeBudget);
        if ok { routeBudget := routeBudget + 1; }
      } else {
        TableStep(t.locals, LOCAL_MAX, LocalWrites(init), LocalWrite(m)[0], localBudget);
        if ok { localBudget := localBudget + 1; }
      }
    }
  }

  ghost predicate BothWritable(t: Tables, ms: seq<Mutation>) {
    Writable(t.routes, ROUTE_MAX, RouteWrites(ms)) && Writable(t.locals, LOCAL_MAX, LocalWrites(ms))
  }

  lemma NothingWritten(t: Tables, budget: nat)
    ensures Reached(t, [], budget, 0, 0) && BothWritable(t, [])
  {
  }

  lemma LastWrites(ms: seq<Mutation>)
    requires ms != []
    ensures var init, m := ms[..|ms| - 1], ms[|ms| - 1];
            if m.InsertRoute? || m.DeleteRoute?
              then RouteWrites(ms) == RouteWrites(init) + [RouteWrite(m)[0]] && LocalWrites(ms) == LocalWrites(init)
            else LocalWrites(ms) == LocalWrites(init) + [LocalWrite(m)[0]] && RouteWrites(ms) == RouteWrites(init)
  {
  }

  /** One more write to a table: it takes effect only within the budget. */
  lemma TableStep<K, V>(t: map<K, V>, cap: nat, ws: seq<Write<K, V>>, w: Write<K, V>, b: nat)
    requires b <= |ws|
    ensures PutAll(t, cap, ws + [w], b).0 == PutAll(t, cap, ws, b).0
    ensures Writable(t, cap, ws + [w]) <==> Writable(t, cap, ws) && Put(PutAll(t, cap, ws, |ws|).0, cap, w).Some?
    ensures Writable(t, cap, ws + [w]) ==>
              PutAll(t, cap, ws + [w], |ws| + 1).0 == Put(PutAll(t, cap, ws, |ws|).0, cap, w).value
  {
    hide PutAll, Put;
    PutAllSnoc(t, cap, ws, w, b);
    PutAllSnoc(t, cap, ws, w, |ws| + 1);
    BudgetBeyond(t, cap, ws, |ws|, |ws| + 1);
  }

  // ---------------------------------------------------------------- one frame

  datatype Routes = Routes(version: u64, keys: set<HostOrderIpv4>, locals: set<Fingerprint>, tables: Tables)

  datatype Frame = Frame(
    version: u64,
    routes: seq<RouteEntry>,
    routeOrder: seq<HostOrderIpv4>,
    localOrder: seq<Fingerprint>,
    lock: bool,
    budget: nat)

  const FRESH: Routes := Routes(0, {}, {}, Tables(map[], map[]))

  ghost predicate Ordered(env: Env, p: Routes, frame: Frame) {
    var rs := ResolveAll(env, frame.routes, frame.version);
    frame.version > p.version && rs.Some? ==>
      Obsolete(RouteRows(rs.value), p.keys, frame.routeOrder) &&
        Obsolete(LocalRows(rs.value), p.locals, frame.localOrder)
  }

  function Sync(env: Env, p: Routes, frame: Frame): (Routes, Outcome) {
    if frame.version <= p.version then (p, Stale)
    else
      var rs := ResolveAll(env, frame.routes, frame.version);
      if rs.None? then (p, Rejected)
      else if !frame.lock then (p, MapError)
      else
        var (t, ok) := WriteAll(p.tables, Mutations(rs.value, p.keys, p.locals, frame.routeOrder, frame.localOrder),
          frame.budget);
        if !ok then (p.(tables := t), MapError)
        else (Routes(frame.version, KeysOf(RouteRows(rs.value)), KeysOf(LocalRows(rs.value)), t), Applied)
  }

  ghost predicate Fits(p: Routes) { |p.tables.routes| <= ROUTE_MAX && |p.tables.locals| <= LOCAL_MAX }

  ghost predicate InStep(p: Routes) { p.keys == p.tables.routes.Keys && p.locals == p.tables.locals.Keys && Fits(p) }

  /** Both identities an entry names parse, and so does its role unless that is empty. */
  predicate Parses(env: Env, e: RouteEntry) {
    && env.parseId(e.destinationSvid).Some? && env.parseId(e.targetAgentSvid).Some?
    && (e.destinationRole == "" || env.parseRole(e.destinationRole).Some?)
  }

  /** The fingerprint of the destination an entry names, in the role it names. */
  function DestinationFp(env: Env, e: RouteEntry): Fingerprint
    requires Parses(env, e)
  {
    env.fingerprint(env.parseId(e.destinationSvid).value,
                    if e.destinationRole == "" then None else env.parseRole(e.destinationRole))
  }

  /** What the kernel is to hold for an entry: the destination's fingerprint, that of the target
      agent without a role, and the frame's version. */
  function WantedValue(env: Env, e: RouteEntry, version: u64): RouteValue
    requires Parses(env, e)
  {
    RouteValue(DestinationFp(env, e), env.fingerprint(env.parseId(e.targetAgentSvid).value, None), version)
  }

  /** An entry resolves exactly when it parses, to its own key and the value wanted for it, and
      counts as local exactly when its target is this node. */
  lemma ResolvesIff(env: Env, e: RouteEntry, version: u64)
    ensures Resolve(env, e, version).Some? <==> Parses(env, e)
    ensures Resolve(env, e, version).Some? ==>
              var r := Resolve(env, e, version).value;
              && r.key == env.hostOrder(e.dummyIp) && r.value == WantedValue(env, e, version)
              && (r.here <==> env.parseId(e.targetAgentSvid) == Some(env.own))
  {
  }

  /** A frame is turned away whole exactly when it is newer and in some entry the destination,
      the target or a role that is not empty does not parse; then, as for one that is not newer,
      neither the mirror, nor its version, nor a kernel table changes. The version is the frame's
      once it is applied and stays until then. */
  lemma RejectedIff(env: Env, p: Routes, frame: Frame)
    ensures Sync(env, p, frame).1 == Rejected <==>
            frame.version > p.version && exists i | 0 <= i < |frame.routes| :: !Parses(env, frame.routes[i])
    ensures Sync(env, p, frame).1 == Stale <==> frame.version <= p.version
    ensures Sync(env, p, frame).1 in {Rejected, Stale} ==> Sync(env, p, frame).0 == p
    ensures Sync(env, p, frame).0.version == if Sync(env, p, frame).1 == Applied then frame.version else p.version
  {
    hide WriteAll, Mutations;
    ResolvesAllIff(env, frame.routes, frame.version);
  }

  lemma ResolvesAllIff(env: Env, routes: seq<RouteEntry>, version: u64)
    ensures ResolveAll(env, routes, version).Some? <==> forall i | 0 <= i < |routes| :: Parses(env, routes[i])
  {
    hide Resolve, Parses, ResolveAll;
    forall i | 0 <= i < |routes| ensures Resolve(env, routes[i], version).Some? <==> Parses(env, routes[i]) {
      ResolvesIff(env, routes[i], version);
    }
  }

  /** The keys a frame wants: the host-order image of its dummy IPs, and the fingerprints of
      the destinations whose target agent is this node. Repeated entries count once. */
  lemma {:induction false} FrameKeys(env: Env, routes: seq<RouteEntry>, version: u64)
    requires forall i | 0 <= i < |routes| :: Parses(env, routes[i])
    ensures ResolveAll(env, routes, version).Some?
    ensures var rs := ResolveAll(env, routes, version).value;
            && KeysOf(RouteRows(rs)) == (set i | 0 <= i < |routes| :: env.hostOrder(routes[i].dummyIp))
            && KeysOf(LocalRows(rs)) ==
                 (set i | 0 <= i < |routes| && env.parseId(routes[i].targetAgentSvid) == Some(env.own) ::
                   DestinationFp(env, routes[i]))
  {
    hide Resolve, DestinationFp, Parses;
    ResolvesAllIff(env, routes, version);
    var rs := ResolveAll(env, routes, version).value;
    RouteKeys(rs);
    LocalKeys(rs);
    forall i | 0 <= i < |routes|
      ensures rs[i].key == env.hostOrder(routes[i].dummyIp) && rs[i].value.dstFp == DestinationFp(env, routes[i])
      ensures rs[i].here <==> env.parseId(routes[i].targetAgentSvid) == Some(env.own)
    {
      assert Resolve(env, routes[i], version) == Some(rs[i]);
      ResolvesIff(env, routes[i], version);
    }
    assert (set i | 0 <= i < |rs| :: rs[i].key) == (set i | 0 <= i < |routes| :: env.hostOrder(routes[i].dummyIp));
    SameLocals(env, routes, rs);
  }

  lemma SameLocals(env: Env, routes: seq<RouteEntry>, rs: seq<Resolved>)
    requires |rs| == |routes| && forall i | 0 <= i < |routes| :: Parses(env, routes[i])
    requires forall i | 0 <= i < |routes| ::
               && rs[i].value.dstFp == DestinationFp(env, routes[i])
               && (rs[i].here <==> env.parseId(routes[i].targetAgentSvid) == Some(env.own))
    ensures (set i | 0 <= i < |rs| && rs[i].here :: rs[i].value.dstFp) ==
            (set i | 0 <= i < |routes| && env.parseId(routes[i].targetAgentSvid) == Some(env.own) ::
              DestinationFp(env, routes[i]))
  {
    hide DestinationFp, Parses;
  }

  lemma {:induction false} RouteKeys(rs: seq<Resolved>)
    ensures KeysOf(RouteRows(rs)) == set i | 0 <= i < |rs| :: rs[i].key
  {
    if rs != [] {
      var init, r := rs[..|rs| - 1], rs[|rs| - 1];
      RouteKeys(init);
      KeysOfOne(RouteRows(init), (r.key, r.value));
      assert (set i | 0 <= i < |rs| :: rs[i].key) == (set i | 0 <= i < |init| :: init[i].key) + {r.key};
    }
  }

  lemma {:induction false} LocalKeys(rs: seq<Resolved>)
    ensures KeysOf(LocalRows(rs)) == set i | 0 <= i < |rs| && rs[i].here :: rs[i].value.dstFp
  {
    if rs != [] {
      var init, r := rs[..|rs| - 1], rs[|rs| - 1];
      LocalKeys(init);
      KeysOfOne(LocalRows(init), (r.value.dstFp, 1));
      assert LocalRows(init) + [] == LocalRows(init);
      assert (set i | 0 <= i < |rs| && rs[i].here :: rs[i].value.dstFp)
          == (set i | 0 <= i < |init| && init[i].here :: init[i].value.dstFp) + if r.here then {r.value.dstFp} else {};
    }
  }

  lemma KeysOfOne<K, V>(rows: seq<(K, V)>, e: (K, V))
    ensures KeysOf(rows + [e]) == KeysOf(rows) + {e.0}
  {
    assert (rows + [e])[..|rows|] == rows;
    KeysSnoc(rows + [e]);
  }

  /** While a frame is applied to tables in step, at every stopping point each table keeps
      the keys it shares with the frame and gains none but the frame's; kept values stay; and
      a stop leaves the mirror and version alone. */
  lemma FrameWithin(env: Env, p: Routes, frame: Frame)
    requires InStep(p) && Ordered(env, p, frame) && Sync(env, p, frame).1 in {MapError, Applied}
    ensures var rs := ResolveAll(env, frame.routes, frame.version).value;
            var q := Sync(env, p, frame).0;
            && p.keys * KeysOf(RouteRows(rs)) <= q.tables.routes.Keys <= p.keys + KeysOf(RouteRows(rs))
            && p.locals * KeysOf(LocalRows(rs)) <= q.tables.locals.Keys <= p.locals + KeysOf(LocalRows(rs))
            && (forall k | k in p.keys && k in q.tables.routes :: q.tables.routes[k] == p.tables.routes[k])
            && (Sync(env, p, frame).1 == MapError ==> q == p.(tables := q.tables))
  {
    hide WriteAll, Mutations, RouteRows, LocalRows, KeysOf, Obsolete, PutAll, Diff, ResolveAll, RouteWrites,
      LocalWrites, Writable;
    if frame.lock {
      var rs := ResolveAll(env, frame.routes, frame.version).value;
      MutationsByTable(rs, p.keys, p.locals, frame.routeOrder, frame.localOrder);
      var rb, lb := WrittenByTable(p.tables, Mutations(rs, p.keys, p.locals, frame.routeOrder, frame.localOrder),
        frame.budget);
      InStepFrame(p.tables.routes, ROUTE_MAX, RouteRows(rs), frame.routeOrder, rb);
      InStepFrame(p.tables.locals, LOCAL_MAX, LocalRows(rs), frame.localOrder, lb);
    }
  }

  lemma WritableIff<K, V>(t: map<K, V>, cap: nat, entries: seq<(K, V)>, mirror: set<K>, order: seq<K>)
    requires Obsolete(entries, mirror, order) && |t| <= cap
    ensures Writable(t, cap, Diff(entries, mirror, order)) <==> Receives(t, cap, entries, mirror)
  {
    hide PutAll, Diff, Obsolete, Receives;
    ReceivesIff(t, cap, entries, mirror, order, |Diff(entries, mirror, order)|);
  }

  /** From any state, a newer parsable frame is applied exactly when the lock is had, no write
      fails of itself, and each table can take it: there is room, and the frame lists every
      mirrored key that the table has lost. */
  lemma AppliedIff(env: Env, p: Routes, frame: Frame)
    requires Fits(p) && Ordered(env, p, frame) && frame.version > p.version
    requires ResolveAll(env, frame.routes, frame.version).Some?
    ensures var rs := ResolveAll(env, frame.routes, frame.version).value;
            Sync(env, p, frame).1 == Applied <==>
              && frame.lock && |Mutations(rs, p.keys, p.locals, frame.routeOrder, frame.localOrder)| <= frame.budget
              && Receives(p.tables.routes, ROUTE_MAX, RouteRows(rs), p.keys)
              && Receives(p.tables.locals, LOCAL_MAX, LocalRows(rs), p.locals)
  {
    hide WriteAll, Mutations, RouteRows, LocalRows, Obsolete, PutAll, Diff, ResolveAll, RouteWrites, LocalWrites,
      Writable, Receives;
    var rs := ResolveAll(env, frame.routes, frame.version).value;
    MutationsByTable(rs, p.keys, p.locals, frame.routeOrder, frame.localOrder);
    var rb, lb := WrittenByTable(p.tables, Mutations(rs, p.keys, p.locals, frame.routeOrder, frame.localOrder),
      frame.budget);
    WritableIff(p.tables.routes, ROUTE_MAX, RouteRows(rs), p.keys, frame.routeOrder);
    WritableIff(p.tables.locals, LOCAL_MAX, LocalRows(rs), p.locals, frame.localOrder);
  }

  /** In step, the tables can take a frame exactly when old and desired keys fit together. */
  lemma InStepReceivesIff(p: Routes, rs: seq<Resolved>)
    requires InStep(p)
    ensures Receives(p.tables.routes, ROUTE_MAX, RouteRows(rs), p.keys) <==>
              FitTogether(p.keys, RouteRows(rs), 262144)
    ensures Receives(p.tables.locals, LOCAL_MAX, LocalRows(rs), p.locals) <==>
              FitTogether(p.locals, LocalRows(rs), 1024)
  {
    hide Receives, FitTogether, RouteRows, LocalRows;
    ReceivesInStep(p.tables.routes, ROUTE_MAX, RouteRows(rs));
    ReceivesInStep(p.tables.locals, LOCAL_MAX, LocalRows(rs));
  }

  // ---------------------------------------------------------------- runs

  ghost predicate Run(env: Env, states: seq<Routes>, frames: seq<Frame>) {
    && |states| == |frames| + 1
    && forall i | 0 <= i < |frames| ::
         Ordered(env, states[i], frames[i]) && states[i + 1] == Sync(env, states[i], frames[i]).0
  }

  /** The resolved entries of the frames that were applied, oldest first. */
  ghost function History(env: Env, states: seq<Routes>, frames: seq<Frame>): seq<seq<Resolved>>
    requires |states| == |frames| + 1
  {
    if frames == [] then []
    else
      var n := |frames| - 1;
      History(env, states[..n + 1], frames[..n]) +
      if Sync(env, states[n], frames[n]).1 == Applied then [ResolveAll(env, frames[n].routes, frames[n].version).value]
        else []
  }

  ghost function RouteHistory(h: seq<seq<Resolved>>): (r: seq<seq<(HostOrderIpv4, RouteValue)>>)
    ensures |r| == |h|
  {
    if h == [] then [] else RouteHistory(h[..|h| - 1]) + [RouteRows(h[|h| - 1])]
  }

  ghost function LocalHistory(h: seq<seq<Resolved>>): (r: seq<seq<(Fingerprint, int)>>)
    ensures |r| == |h|
  {
    if h == [] then [] else LocalHistory(h[..|h| - 1]) + [LocalRows(h[|h| - 1])]
  }

  ghost predicate Synced(p: Routes, h: seq<seq<Resolved>>) {
    && Fits(p)
    && Tracks(RouteHistory(h), p.tables.routes, p.keys)
    && Tracks(LocalHistory(h), p.tables.locals, p.locals)
  }

  lemma AppliedTables(env: Env, p: Routes, frame: Frame)
    requires Sync(env, p, frame).1 == Applied
    ensures var rs := ResolveAll(env, frame.routes, frame.version).value;
            var q := Sync(env, p, frame).0;
            var dr, dl := Diff(RouteRows(rs), p.keys, frame.routeOrder),
              Diff(LocalRows(rs), p.locals, frame.localOrder);
            && (q.tables.routes, true) == PutAll(p.tables.routes, ROUTE_MAX, dr, |dr|)
            && (q.tables.locals, true) == PutAll(p.tables.locals, LOCAL_MAX, dl, |dl|)
  {
    hide WriteAll, Mutations, RouteRows, LocalRows, PutAll, Diff, ResolveAll, RouteWrites, LocalWrites;
    var rs := ResolveAll(env, frame.routes, frame.version).value;
    MutationsByTable(rs, p.keys, p.locals, frame.routeOrder, frame.localOrder);
    var rb, lb := WrittenByTable(p.tables, Mutations(rs, p.keys, p.locals, frame.routeOrder, frame.localOrder),
      frame.budget);
  }

  lemma SyncedStep(env: Env, p: Routes, h: seq<seq<Resolved>>, frame: Frame)
    requires Synced(p, h) && Ordered(env, p, frame) && Sync(env, p, frame).1 == Applied
    ensures Synced(Sync(env, p, frame).0, h + [ResolveAll(env, frame.routes, frame.version).value])
  {
    hide PutAll, RouteRows, LocalRows, KeysOf, Diff, Obsolete, Tracks, ResolveAll, WriteAll, Mutations;
    var rs := ResolveAll(env, frame.routes, frame.version).value;
    var dr, dl := Diff(RouteRows(rs), p.keys, frame.routeOrder), Diff(LocalRows(rs), p.locals, frame.localOrder);
    AppliedTables(env, p, frame);
    TracksStep(RouteHistory(h), p.tables.routes, ROUTE_MAX, RouteRows(rs), p.keys, frame.routeOrder, |dr|);
    TracksStep(LocalHistory(h), p.tables.locals, LOCAL_MAX, LocalRows(rs), p.locals, frame.localOrder, |dl|);
    assert (h + [rs])[..|h|] == h;
  }

  /** Over every run in which no write fails: in both tables kernel keys, mirror keys and the
      last applied frame's keys are the same, and each route carries the fingerprints and
      version of the frame that most recently introduced its key. */
  lemma {:induction false} RunSynced(env: Env, states: seq<Routes>, frames: seq<Frame>)
    requires Run(env, states, frames) && states[0] == FRESH
    requires forall i | 0 <= i < |frames| :: Sync(env, states[i], frames[i]).1 != MapError
    ensures Synced(states[|frames|], History(env, states, frames))
  {
    hide PutAll, RouteRows, LocalRows, KeysOf, Diff, Obsolete, Tracks, ResolveAll, WriteAll, Mutations, Synced, Ordered;
    if frames == [] {
      FreshSynced();
    } else {
      var n := |frames| - 1;
      RunSynced(env, states[..n + 1], frames[..n]);
      var h := History(env, states[..n + 1], frames[..n]);
      assert h + [] == h;
      if Sync(env, states[n], frames[n]).1 == Applied { SyncedStep(env, states[n], h, frames[n]); }
    }
  }

  lemma FreshSynced()
    ensures Synced(FRESH, [])
  {
  }

  // ---------------------------------------------------------------- keys that are lost

  /** Mirrored keys that the kernel does not have. */
  ghost function LostRoutes(p: Routes): set<HostOrderIpv4> { p.keys - p.tables.routes.Keys }

  ghost function LostLocals(p: Routes): set<Fingerprint> { p.locals - p.tables.locals.Keys }

  lemma LostStep(env: Env, p: Routes, frame: Frame)
    requires Fits(p) && Ordered(env, p, frame)
    ensures var (q, outcome) := Sync(env, p, frame);
            && Fits(q) && LostRoutes(p) <= LostRoutes(q) && LostLocals(p) <= LostLocals(q)
            && (outcome == Applied ==>
                  var rs := ResolveAll(env, frame.routes, frame.version).value;
                  LostRoutes(p) <= KeysOf(RouteRows(rs)) && LostLocals(p) <= KeysOf(LocalRows(rs)))
  {
    hide WriteAll, Mutations, RouteRows, LocalRows, KeysOf, Obsolete, PutAll, Diff, ResolveAll, RouteWrites,
      LocalWrites, Writable;
    if Sync(env, p, frame).1 in {MapError, Applied} && frame.lock {
      var rs := ResolveAll(env, frame.routes, frame.version).value;
      MutationsByTable(rs, p.keys, p.locals, frame.routeOrder, frame.localOrder);
      var rb, lb := WrittenByTable(p.tables, Mutations(rs, p.keys, p.locals, frame.routeOrder, frame.localOrder),
        frame.budget);
      LostStayLost(p.tables.routes, ROUTE_MAX, RouteRows(rs), p.keys, frame.routeOrder, rb);
      LostStayLost(p.tables.locals, LOCAL_MAX, LocalRows(rs), p.locals, frame.localOrder, lb);
      if Sync(env, p, frame).1 == Applied { AppliedTables(env, p, frame); }
    }
  }

  /** Over every run whatever, failed frames included: a key once lost is lost at every later
      point, and no frame is applied from then on unless it lists that key. */
  lemma {:induction false} LostForever(env: Env, states: seq<Routes>, frames: seq<Frame>, i: nat, j: nat)
    requires Run(env, states, frames) && Fits(states[0]) && i <= j <= |frames|
    ensures Fits(states[j]) && LostRoutes(states[i]) <= LostRoutes(states[j])
    ensures LostLocals(states[i]) <= LostLocals(states[j])
    ensures j < |frames| && Sync(env, states[j], frames[j]).1 == Applied ==>
              var rs := ResolveAll(env, frames[j].routes, frames[j].version).value;
              LostRoutes(states[i]) <= KeysOf(RouteRows(rs)) && LostLocals(states[i]) <= KeysOf(LocalRows(rs))
    decreases j
  {
    hide Sync, RouteRows, LocalRows, ResolveAll, KeysOf, LostRoutes, LostLocals, Fits, Ordered;
    if j > 0 {
      LostForever(env, states, frames, if i < j then i else j - 1, j - 1);
      LostStep(env, states[j - 1], frames[j - 1]);
    }
    if j < |frames| {
      AppliedParsed(env, states[j], frames[j]);
      LostStep(env, states[j], frames[j]);
    }
  }

  lemma AppliedParsed(env: Env, p: Routes, frame: Frame)
    ensures Sync(env, p, frame).1 == Applied ==> ResolveAll(env, frame.routes, frame.version).Some?
  {
    hide WriteAll, Mutations, RouteRows, LocalRows, KeysOf, ResolveAll;
  }

  // ---------------------------------------------------------------- after a failed frame

  /** How far the kernel is from the mirrors: keys that are mirrored only (`lost`) and keys
      that are in the kernel only (`extra`). */
  datatype Gap = Gap(lostRoutes: set<HostOrderIpv4>, extraRoutes: set<HostOrderIpv4>, lostLocals: set<Fingerprint>,
                     extraLocals: set<Fingerprint>)

  ghost predicate HasGap(p: Routes, g: Gap) {
    && Fits(p)
    && Drift(p.keys, p.tables.routes, g.lostRoutes, g.extraRoutes)
    && Drift(p.locals, p.tables.locals, g.lostLocals, g.extraLocals)
  }

  /** The gap with the extra keys that are listed taken out. */
  ghost function Narrowed(g: Gap, h: seq<seq<Resolved>>): Gap {
    if h == [] then g
    else
      var last, rest := h[|h| - 1], Narrowed(g, h[..|h| - 1]);
      rest.(extraRoutes := rest.extraRoutes - KeysOf(RouteRows(last)),
      extraLocals := rest.extraLocals - KeysOf(LocalRows(last)))
  }

  /** From any state at all, over every run without a failed write: lost keys stay lost, and
      of the extra keys exactly those that some applied update lists have become tracked. */
  lemma {:induction false} GapRun(env: Env, states: seq<Routes>, frames: seq<Frame>, g: Gap)
    requires Run(env, states, frames) && HasGap(states[0], g)
    requires forall i | 0 <= i < |frames| :: Sync(env, states[i], frames[i]).1 != MapError
    ensures HasGap(states[|frames|], Narrowed(g, History(env, states, frames)))
  {
    hide PutAll, RouteRows, LocalRows, KeysOf, Diff, Obsolete, ResolveAll, WriteAll, Mutations, HasGap, Ordered;
    if frames != [] {
      var n := |frames| - 1;
      GapRun(env, states[..n + 1], frames[..n], g);
      var h := History(env, states[..n + 1], frames[..n]);
      assert h + [] == h;
      if Sync(env, states[n], frames[n]).1 == Applied {
        var rs := ResolveAll(env, frames[n].routes, frames[n].version).value;
        assert (h + [rs])[..|h|] == h;
        GapStep(env, states[n], frames[n], Narrowed(g, h));
      }
    }
  }

  lemma GapStep(env: Env, p: Routes, frame: Frame, g: Gap)
    requires HasGap(p, g) && Ordered(env, p, frame) && Sync(env, p, frame).1 == Applied
    ensures var rs := ResolveAll(env, frame.routes, frame.version).value;
            HasGap(Sync(env, p, frame).0, g.(extraRoutes := g.extraRoutes - KeysOf(RouteRows(rs)),
                                          extraLocals := g.extraLocals - KeysOf(LocalRows(rs))))
  {
    hide PutAll, RouteRows, LocalRows, KeysOf, Diff, Obsolete, Drift, ResolveAll, WriteAll, Mutations;
    var rs := ResolveAll(env, frame.routes, frame.version).value;
    AppliedTables(env, p, frame);
    var dr, dl := Diff(RouteRows(rs), p.keys, frame.routeOrder), Diff(LocalRows(rs), p.locals, frame.localOrder);
    DriftStep(p.tables.routes, ROUTE_MAX, RouteRows(rs), p.keys, frame.routeOrder, |dr|, g.lostRoutes, g.extraRoutes);
    DriftStep(p.tables.locals, LOCAL_MAX, LocalRows(rs), p.locals, frame.localOrder, |dl|, g.lostLocals, g.extraLocals);
  }

  /** The routes and the local destinations an update lists; none if it does not resolve. */
  ghost function UpdateRoutes(env: Env, frame: Frame): set<HostOrderIpv4> {
    var rs := ResolveAll(env, frame.routes, frame.version);
    if rs.Some? then KeysOf(RouteRows(rs.value)) else {}
  }

  ghost function UpdateLocals(env: Env, frame: Frame): set<Fingerprint> {
    var rs := ResolveAll(env, frame.routes, frame.version);
    if rs.Some? then KeysOf(LocalRows(rs.value)) else {}
  }

  ghost predicate GapBounds(env: Env, p: Routes, frame: Frame) {
    var (q, outcome) := Sync(env, p, frame);
    var D, E := UpdateRoutes(env, frame), UpdateLocals(env, frame);
    match outcome
    case Applied =>
      && q.tables.routes.Keys - q.keys == (p.tables.routes.Keys - p.keys) - D && LostRoutes(q) == LostRoutes(p)
      && q.tables.locals.Keys - q.locals == (p.tables.locals.Keys - p.locals) - E && LostLocals(q) == LostLocals(p)
    case MapError =>
      && q.tables.routes.Keys - q.keys <= (p.tables.routes.Keys - p.keys) + D
      && LostRoutes(q) <= LostRoutes(p) + (p.keys - D)
      && q.tables.locals.Keys - q.locals <= (p.tables.locals.Keys - p.locals) + E
      && LostLocals(q) <= LostLocals(p) + (p.locals - E)
    case _ => q == p
  }

  lemma UpdateBounds(env: Env, p: Routes, frame: Frame)
    requires Fits(p) && Ordered(env, p, frame)
    ensures GapBounds(env, p, frame) && Fits(Sync(env, p, frame).0)
  {
    hide WriteAll, Mutations, RouteRows, LocalRows, KeysOf, Obsolete, PutAll, Diff, ResolveAll, RouteWrites,
      LocalWrites, Writable;
    if Sync(env, p, frame).1 in {MapError, Applied} && frame.lock {
      var rs := ResolveAll(env, frame.routes, frame.version).value;
      MutationsByTable(rs, p.keys, p.locals, frame.routeOrder, frame.localOrder);
      var rb, lb := WrittenByTable(p.tables, Mutations(rs, p.keys, p.locals, frame.routeOrder, frame.localOrder),
        frame.budget);
      DriftBounds(p.tables.routes, ROUTE_MAX, RouteRows(rs), p.keys, frame.routeOrder, rb);
      DriftBounds(p.tables.locals, LOCAL_MAX, LocalRows(rs), p.locals, frame.localOrder, lb);
      if Sync(env, p, frame).1 == Applied { AppliedTables(env, p, frame); }
    }
  }

  lemma {:induction false} StaysFit(env: Env, states: seq<Routes>, frames: seq<Frame>, i: nat)
    requires Run(env, states, frames) && Fits(states[0]) && i <= |frames|
    ensures Fits(states[i])
  {
    hide Sync, Ordered, GapBounds;
    if i > 0 {
      StaysFit(env, states, frames, i - 1);
      UpdateBounds(env, states[i - 1], frames[i - 1]);
    }
  }

  /** A key of one table or the other. */
  datatype TableKey = RouteKey(ip: HostOrderIpv4) | LocalKey(fp: Fingerprint)

  ghost predicate InKernel(p: Routes, key: TableKey) {
    match key
    case RouteKey(ip) => ip in p.tables.routes
    case LocalKey(fp) => fp in p.tables.locals
  }

  ghost predicate Mirrored(p: Routes, key: TableKey) {
    match key
    case RouteKey(ip) => ip in p.keys
    case LocalKey(fp) => fp in p.locals
  }

  ghost predicate Lists(env: Env, frame: Frame, key: TableKey) {
    match key
    case RouteKey(ip) => ip in UpdateRoutes(env, frame)
    case LocalKey(fp) => fp in UpdateLocals(env, frame)
  }

  lemma KeyStep(env: Env, p: Routes, frame: Frame, key: TableKey)
    requires Fits(p) && Ordered(env, p, frame)
    ensures var (q, outcome) := Sync(env, p, frame);
            && (InKernel(q, key) && !Mirrored(q, key) ==>
                  || (InKernel(p, key) && !Mirrored(p, key) && !(outcome == Applied && Lists(env, frame, key)))
                  || (outcome == MapError && Lists(env, frame, key)))
            && (Mirrored(q, key) && !InKernel(q, key) ==>
                  || (Mirrored(p, key) && !InKernel(p, key))
                  || (outcome == MapError && Mirrored(p, key) && !Lists(env, frame, key)))
  {
    hide Sync, UpdateRoutes, UpdateLocals, Ordered;
    UpdateBounds(env, p, frame);
    var q := Sync(env, p, frame).0;
    match key {
      case RouteKey(ip) =>
        assert ip in q.tables.routes.Keys - q.keys <==> ip in q.tables.routes && ip !in q.keys;
        assert ip in LostRoutes(q) <==> ip in q.keys && ip !in q.tables.routes;
      case LocalKey(fp) =>
        assert fp in q.tables.locals.Keys - q.locals <==> fp in q.tables.locals && fp !in q.locals;
        assert fp in LostLocals(q) <==> fp in q.locals && fp !in q.tables.locals;
    }
  }

  /** Over every run whatever from start-up, a key that is in the kernel only was listed by an
      update that failed in its writes, and by no update applied since. */
  lemma {:induction false} ExtraFromFailed(env: Env, states: seq<Routes>, frames: seq<Frame>, key: TableKey)
    returns (i: nat)
    requires Run(env, states, frames) && states[0] == FRESH
    requires InKernel(states[|frames|], key) && !Mirrored(states[|frames|], key)
    ensures i < |frames| && Sync(env, states[i], frames[i]).1 == MapError && Lists(env, frames[i], key)
    ensures forall j | i < j < |frames| && Sync(env, states[j], frames[j]).1 == Applied :: !Lists(env, frames[j], key)
  {
    hide Sync, Ordered, Lists;
    if frames == [] { assert false; }
    var n := |frames| - 1;
    StaysFit(env, states, frames, n);
    KeyStep(env, states[n], frames[n], key);
    if InKernel(states[n], key) && !Mirrored(states[n], key) {
      i := ExtraFromFailed(env, states[..n + 1], frames[..n], key);
    } else {
      i := n;
    }
  }

  /** And a key that is mirrored only was being dropped by an update that failed in its writes. */
  lemma {:induction false} LostFromFailed(env: Env, states: seq<Routes>, frames: seq<Frame>, key: TableKey)
    returns (i: nat)
    requires Run(env, states, frames) && states[0] == FRESH
    requires Mirrored(states[|frames|], key) && !InKernel(states[|frames|], key)
    ensures i < |frames| && Sync(env, states[i], frames[i]).1 == MapError
    ensures Mirrored(states[i], key) && !Lists(env, frames[i], key)
  {
    hide Sync, Ordered, Lists;
    if frames == [] { assert false; }
    var n := |frames| - 1;
    StaysFit(env, states, frames, n);
    KeyStep(env, states[n], frames[n], key);
    if Mirrored(states[n], key) && !InKernel(states[n], key) {
      i := LostFromFailed(env, states[..n + 1], frames[..n], key);
    } else {
      i := n;
    }
  }

  // ---------------------------------------------------------------- where routes come from

  lemma {:induction false} RowOrigin(rs: seq<Resolved>, key: HostOrderIpv4, value: RouteValue) returns (i: nat)
    requires (key, value) in RouteRows(rs)
    ensures i < |rs| && rs[i].key == key && rs[i].value == value
  {
    i := |rs| - 1;
    if (key, value) in RouteRows(rs[..i]) { i := RowOrigin(rs[..i], key, value); }
  }

  lemma {:induction false} LocalRowOrigin(rs: seq<Resolved>, key: Fingerprint, value: int) returns (i: nat)
    requires (key, value) in LocalRows(rs)
    ensures i < |rs| && rs[i].here && rs[i].value.dstFp == key && value == 1
  {
    i := |rs| - 1;
    if (key, value) in LocalRows(rs[..i]) { i := LocalRowOrigin(rs[..i], key, value); }
  }

  /** Some entry of the frame is for this key and wants this value. */
  ghost predicate Carries(env: Env, frame: Frame, key: HostOrderIpv4, value: RouteValue) {
    exists i | 0 <= i < |frame.routes| ::
      && Parses(env, frame.routes[i]) && env.hostOrder(frame.routes[i].dummyIp) == key
      && value == WantedValue(env, frame.routes[i], frame.version)
  }

  /** Some entry of the frame targets this node and has this destination. */
  ghost predicate Hosts(env: Env, frame: Frame, fp: Fingerprint) {
    exists i | 0 <= i < |frame.routes| ::
      && Parses(env, frame.routes[i]) && env.parseId(frame.routes[i].targetAgentSvid) == Some(env.own)
      && fp == DestinationFp(env, frame.routes[i])
  }

  lemma RowCarried(env: Env, frame: Frame, key: HostOrderIpv4, value: RouteValue)
    requires var rs := ResolveAll(env, frame.routes, frame.version); rs.Some? && (key, value) in RouteRows(rs.value)
    ensures Carries(env, frame, key, value)
  {
    hide Resolve, RouteRows, Parses, WantedValue;
    var rs := ResolveAll(env, frame.routes, frame.version).value;
    var i := RowOrigin(rs, key, value);
    assert Resolve(env, frame.routes[i], frame.version) == Some(rs[i]);
    ResolvesIff(env, frame.routes[i], frame.version);
  }

  lemma RowHosted(env: Env, frame: Frame, fp: Fingerprint, value: int)
    requires var rs := ResolveAll(env, frame.routes, frame.version); rs.Some? && (fp, value) in LocalRows(rs.value)
    ensures Hosts(env, frame, fp) && value == 1
  {
    hide Resolve, LocalRows, Parses, WantedValue;
    var rs := ResolveAll(env, frame.routes, frame.version).value;
    var i := LocalRowOrigin(rs, fp, value);
    assert Resolve(env, frame.routes[i], frame.version) == Some(rs[i]);
    ResolvesIff(env, frame.routes[i], frame.version);
    hide DestinationFp;
    assert rs[i].value == WantedValue(env, frame.routes[i], frame.version);
    WantedDestination(env, frame.routes[i], frame.version);
  }

  lemma WantedDestination(env: Env, e: RouteEntry, version: u64)
    requires Parses(env, e)
    ensures WantedValue(env, e, version).dstFp == DestinationFp(env, e)
  {
  }

  lemma OriginStep(env: Env, p: Routes, frame: Frame, key: HostOrderIpv4, fp: Fingerprint)
    ensures var t, u := p.tables, Sync(env, p, frame).0.tables;
            && (key in u.routes ==>
                  (key in t.routes && u.routes[key] == t.routes[key]) || Carries(env, frame, key, u.routes[key]))
            && (fp in u.locals ==>
                  (fp in t.locals && u.locals[fp] == t.locals[fp]) || (Hosts(env, frame, fp) && u.locals[fp] == 1))
  {
    hide WriteAll, Mutations, RouteRows, LocalRows, PutAll, Diff, ResolveAll, RouteWrites, LocalWrites, Carries, Hosts,
      Writable;
    if frame.version > p.version && ResolveAll(env, frame.routes, frame.version).Some? && frame.lock {
      var rs, u := ResolveAll(env, frame.routes, frame.version).value, Sync(env, p, frame).0.tables;
      MutationsByTable(rs, p.keys, p.locals, frame.routeOrder, frame.localOrder);
      var rb, lb := WrittenByTable(p.tables, Mutations(rs, p.keys, p.locals, frame.routeOrder, frame.localOrder),
        frame.budget);
      ValueOrigin(p.tables.routes, ROUTE_MAX, RouteRows(rs), p.keys, frame.routeOrder, rb, key);
      ValueOrigin(p.tables.locals, LOCAL_MAX, LocalRows(rs), p.locals, frame.localOrder, lb, fp);
      if key in u.routes && (key, u.routes[key]) in RouteRows(rs) { RowCarried(env, frame, key, u.routes[key]); }
      if fp in u.locals && (fp, u.locals[fp]) in LocalRows(rs) { RowHosted(env, frame, fp, u.locals[fp]); }
    }
  }

  /** Over every run whatever from start-up, a route in the kernel carries the destination and
      agent fingerprints of an entry for its address and that frame's version, and a local
      workload in the kernel is the destination of an entry that targets this node. */
  lemma {:induction false} RouteOrigin(env: Env, states: seq<Routes>, frames: seq<Frame>, key: HostOrderIpv4,
                                       fp: Fingerprint)
    requires Run(env, states, frames) && states[0] == FRESH
    ensures var t := states[|frames|].tables;
            && (key in t.routes ==> exists n | 0 <= n < |frames| :: Carries(env, frames[n], key, t.routes[key]))
            && (fp in t.locals ==> t.locals[fp] == 1 && exists n | 0 <= n < |frames| :: Hosts(env, frames[n], fp))
  {
    hide Sync, Ordered, Carries, Hosts;
    if frames != [] {
      var n := |frames| - 1;
      RouteOrigin(env, states[..n + 1], frames[..n], key, fp);
      OriginStep(env, states[n], frames[n], key, fp);
      assert forall i | 0 <= i < n :: frames[..n][i] == frames[i];
    }
  }

  // ---------------------------------------------------------------- the sync state and its methods

  lemma {:induction false} WriteAllStop(t: Tables, ms: seq<Mutation>, i: nat, budget: nat)
    requires i <= |ms| && !WriteAll(t, ms[..i], budget).1
    ensures WriteAll(t, ms, budget) == WriteAll(t, ms[..i], budget)
  {
    if i == |ms| {
      assert ms[..i] == ms;
    } else {
      var n := |ms| - 1;
      assert ms[..n][..i] == ms[..i];
      WriteAllStop(t, ms[..n], i, budget);
    }
  }

  /** Mutations one by one, ending at the first kernel error. */
  method ApplyMutationsToMaps(ms: seq<Mutation>, routes: KernelMap<HostOrderIpv4, RouteValue>,
                              locals: KernelMap<Fingerprint, int>, budget: nat)
    returns (ok: bool)
    requires routes.cap == ROUTE_MAX && locals.cap == LOCAL_MAX
    modifies routes, locals
    ensures (Tables(routes.rows, locals.rows), ok) == WriteAll(old(Tables(routes.rows, locals.rows)), ms, budget)
  {
    hide Put;
    ghost var t := Tables(routes.rows, locals.rows);
    ok := true;
    for i := 0 to |ms|
      invariant ok && (Tables(routes.rows, locals.rows), ok) == WriteAll(t, ms[..i], budget)
    {
      assert ms[..i + 1][..i] == ms[..i];
      match ms[i] {
        case InsertRoute(k, v) => ok := routes.Apply(Ins(k, v), i >= budget);
        case DeleteRoute(k) => ok := routes.Apply(Del(k), i >= budget);
        case AddLocalWorkload(fp) => ok := locals.Apply(Ins(fp, 1), i >= budget);
        case RemoveLocalWorkload(fp) => ok := locals.Apply(Del(fp), i >= budget);
      }
      if !ok {
        WriteAllStop(t, ms, i + 1, budget);
        return;
      }
    }
    assert ms[..|ms|] == ms;
  }

  /** The plan for a frame: nothing to do, nothing to be done with it, or these mutations. */
  datatype Plan = StaleUpdate | BadEntry | Planned(mutations: seq<Mutation>)

  class RouteSyncState {
    var currentVersion: u64
    var dummyIpKeys: set<HostOrderIpv4>
    var localWorkloadFps: set<Fingerprint>

    constructor ()
      ensures currentVersion == 0 && dummyIpKeys == {} && localWorkloadFps == {}
    {
      currentVersion, dummyIpKeys, localWorkloadFps := 0, {}, {};
    }

    /** One pass over the entries, giving up at the first that does not parse. */
    method ResolveEntries(env: Env, version: u64, routes: seq<RouteEntry>)
      returns (ok: bool, ms: seq<Mutation>, keys: set<HostOrderIpv4>, locals: set<Fingerprint>, ghost rs: seq<Resolved>)
      ensures ok == ResolveAll(env, routes, version).Some?
      ensures ok ==> rs == ResolveAll(env, routes, version).value && ms == Additions(rs, dummyIpKeys, localWorkloadFps)
      ensures ok ==> keys == KeysOf(RouteRows(rs)) && locals == KeysOf(LocalRows(rs))
    {
      hide KeysOf, Resolve;
      ok, ms, keys, locals, rs := true, [], {}, {}, [];
      NoRows();
      for i := 0 to |routes|
        invariant ok && ResolveAll(env, routes[..i], version) == Some(rs)
        invariant ms == Additions(rs, dummyIpKeys, localWorkloadFps)
        invariant keys == KeysOf(RouteRows(rs)) && locals == KeysOf(LocalRows(rs))
      {
        var entry := Resolve(env, routes[i], version);
        if entry.None? {
          ok := false;
          return;
        }
        var r := entry.value;
        assert routes[..i + 1][..i] == routes[..i] && (rs + [r])[..|rs|] == rs;
        KeysOfOne(RouteRows(rs), (r.key, r.value));
        KeysOfOne(LocalRows(rs), (r.value.dstFp, 1));
        assert LocalRows(rs) + [] == LocalRows(rs);
        rs := rs + [r];
        keys := keys + {r.key};
        if r.key !in dummyIpKeys { ms := ms + [InsertRoute(r.key, r.value)]; }
        if r.here {
          locals := locals + {r.value.dstFp};
          if r.value.dstFp !in localWorkloadFps { ms := ms + [AddLocalWorkload(r.value.dstFp)]; }
        }
      }
      assert routes[..|routes|] == routes;
    }

    /** The frame's mutations: entry by entry what is not mirrored, then the mirrored keys
        that no entry names, each once. */
    method ProcessRouteUpdate(env: Env, version: u64, routes: seq<RouteEntry>)
      returns (plan: Plan, ghost rs: seq<Resolved>, ghost routeOrder: seq<HostOrderIpv4>,
        ghost localOrder: seq<Fingerprint>)
      ensures plan.StaleUpdate? <==> version <= currentVersion
      ensures plan.BadEntry? <==> version > currentVersion && ResolveAll(env, routes, version).None?
      ensures plan.Planned? ==>
        && ResolveAll(env, routes, version) == Some(rs)
        && Obsolete(RouteRows(rs), dummyIpKeys, routeOrder) && Obsolete(LocalRows(rs), localWorkloadFps, localOrder)
        && plan.mutations == Mutations(rs, dummyIpKeys, localWorkloadFps, routeOrder, localOrder)
    {
      hide KeysOf, RouteRows, LocalRows, Additions, ResolveAll, Obsolete;
      rs, routeOrder, localOrder := [], [], [];
      if version <= currentVersion { return StaleUpdate, rs, routeOrder, localOrder; }
      var ok, ms, keys, locals, resolved := ResolveEntries(env, version, routes);
      if !ok { return BadEntry, rs, routeOrder, localOrder; }
      rs := resolved;
      var gone := ObsoleteKeys(RouteRows(rs), keys, dummyIpKeys);
      var deletions := DeleteRoutes(gone);
      var goneLocals := ObsoleteKeys(LocalRows(rs), locals, localWorkloadFps);
      var removals := RemoveLocals(goneLocals);
      routeOrder, localOrder := gone, goneLocals;
      plan := Planned(ms + deletions + removals);
    }

    static method DeleteRoutes(order: seq<HostOrderIpv4>) returns (ms: seq<Mutation>)
      ensures ms == RouteDeletions(order)
    {
      ms := [];
      for i := 0 to |order|
        invariant ms == RouteDeletions(order[..i])
      {
        assert order[..i + 1][..i] == order[..i];
        ms := ms + [DeleteRoute(order[i])];
      }
      assert order[..|order|] == order;
    }

    static method RemoveLocals(order: seq<Fingerprint>) returns (ms: seq<Mutation>)
      ensures ms == LocalDeletions(order)
    {
      ms := [];
      for i := 0 to |order|
        invariant ms == LocalDeletions(order[..i])
      {
        assert order[..i + 1][..i] == order[..i];
        ms := ms + [RemoveLocalWorkload(order[i])];
      }
      assert order[..|order|] == order;
    }

    /** After a frame's own mutations the mirror holds exactly that frame's keys. */
    method ApplyMutationsToState(ms: seq<Mutation>, version: u64,
                                 ghost rs: seq<Resolved>, ghost routeOrder: seq<HostOrderIpv4>,
                                   ghost localOrder: seq<Fingerprint>)
      requires ms == Mutations(rs, dummyIpKeys, localWorkloadFps, routeOrder, localOrder)
      requires Obsolete(RouteRows(rs), dummyIpKeys, routeOrder) && Obsolete(LocalRows(rs), localWorkloadFps, localOrder)
      modifies this
      ensures currentVersion == version
      ensures dummyIpKeys == KeysOf(RouteRows(rs)) && localWorkloadFps == KeysOf(LocalRows(rs))
    {
      hide Mutations, RouteRows, LocalRows, KeysOf, Obsolete, Diff;
      MutationsByTable(rs, dummyIpKeys, localWorkloadFps, routeOrder, localOrder);
      RecordedDiff(dummyIpKeys, RouteRows(rs), routeOrder);
      RecordedDiff(localWorkloadFps, LocalRows(rs), localOrder);
      RecordMutations(ms);
      currentVersion := version;
    }

    method RecordMutations(ms: seq<Mutation>)
      modifies this`dummyIpKeys, this`localWorkloadFps
      ensures dummyIpKeys == Recorded(old(dummyIpKeys), RouteWrites(ms))
      ensures localWorkloadFps == Recorded(old(localWorkloadFps), LocalWrites(ms))
    {
      for i := 0 to |ms|
        invariant dummyIpKeys == Recorded(old(dummyIpKeys), RouteWrites(ms[..i]))
        invariant localWorkloadFps == Recorded(old(localWorkloadFps), LocalWrites(ms[..i]))
      {
        hide Recorded, RouteWrites, LocalWrites;
        assert ms[..i + 1][..i] == ms[..i];
        LastWrites(ms[..i + 1]);
        if ms[i].InsertRoute? || ms[i].DeleteRoute? {
          RecordedSnoc(old(dummyIpKeys), RouteWrites(ms[..i]), RouteWrite(ms[i])[0]);
        } else {
          RecordedSnoc(old(localWorkloadFps), LocalWrites(ms[..i]), LocalWrite(ms[i])[0]);
        }
        match ms[i] {
          case InsertRoute(k, _) => dummyIpKeys := dummyIpKeys + {k};
          case DeleteRoute(k) => dummyIpKeys := dummyIpKeys - {k};
          case AddLocalWorkload(fp) => localWorkloadFps := localWorkloadFps + {fp};
          case RemoveLocalWorkload(fp) => localWorkloadFps := localWorkloadFps - {fp};
        }
      }
      assert ms[..|ms|] == ms;
    }

    ghost function Snapshot(routes: KernelMap<HostOrderIpv4, RouteValue>, locals: KernelMap<Fingerprint, int>): Routes
      reads this, routes, locals
    {
      Routes(currentVersion, dummyIpKeys, localWorkloadFps, Tables(routes.rows, locals.rows))
    }

    /** One frame, against the specification `Sync` for the removal order the sets happened to give. */
    method SyncRoutes(env: Env, routes: KernelMap<HostOrderIpv4, RouteValue>, locals: KernelMap<Fingerprint, int>,
                      version: u64, entries: seq<RouteEntry>, lock: bool, budget: nat)
      returns (outcome: Outcome, ghost frame: Frame)
      requires routes.cap == ROUTE_MAX && locals.cap == LOCAL_MAX
      modifies this, routes, locals
      ensures frame == Frame(version, entries, frame.routeOrder, frame.localOrder, lock, budget)
      ensures Ordered(env, old(Snapshot(routes, locals)), frame)
      ensures (Snapshot(routes, locals), outcome) == Sync(env, old(Snapshot(routes, locals)), frame)
    {
      hide Mutations, RouteRows, LocalRows, KeysOf, Obsolete, WriteAll, ResolveAll;
      var plan, rs, routeOrder, localOrder := ProcessRouteUpdate(env, version, entries);
      frame := Frame(version, entries, routeOrder, localOrder, lock, budget);
      match plan {
        case StaleUpdate => outcome := Stale;
        case BadEntry => outcome := Rejected;
        case Planned(ms) =>
          if !lock { return MapError, frame; }
          var ok := ApplyMutationsToMaps(ms, routes, locals, budget);
          if !ok { return MapError, frame; }
          ApplyMutationsToState(ms, version, rs, routeOrder, localOrder);
          outcome := Applied;
      }
    }
  }

  lemma NoRows()
    ensures KeysOf(RouteRows([])) == {} && KeysOf(LocalRows([])) == {}
  {
  }
}
