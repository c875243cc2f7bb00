/** The full-state reconciler (src/workloads/reconciler.rs): which pods to boot and which to
    evict so that the node matches a schedule frame. */
module Reconciler {
  import opened Pods
  import opened Workloads

  function DesiredIds(desired: seq<WorkloadSpec>): set<string> {
    set i | 0 <= i < |desired| :: desired[i].workloadId
  }

  /** The workloads with a pod that is neither terminating nor stopped. */
  function RunningIds(pods: map<string, Pod>): set<string> {
    set id | id in pods && Active(pods[id]) :: pods[id].workloadId
  }

  /** The specs of the frame whose workload is not in `present`, in frame order. */
  function Missing(desired: seq<WorkloadSpec>, present: set<string>): (r: seq<WorkloadSpec>)
    ensures forall spec :: spec in r <==> spec in desired && spec.workloadId !in present
  {
    if desired == [] then []
    else
      var rest := Missing(desired[1..], present);
      if desired[0].workloadId in present then rest else [desired[0]] + rest
  }

  /** The active pods whose workload the frame no longer lists. */
  function Surplus(desired: seq<WorkloadSpec>, pods: map<string, Pod>): set<string> {
    set id | id in pods && Active(pods[id]) && pods[id].workloadId !in DesiredIds(desired)
  }

  /** `q` lists the members of `s`, each once. */
  ghost predicate Lists(q: seq<string>, s: set<string>) { multiset(q) == multiset(s) }

  lemma {:induction false} MissingAppend(a: seq<WorkloadSpec>, b: seq<WorkloadSpec>, present: set<string>)
    ensures Missing(a + b, present) == Missing(a, present) + Missing(b, present)
  {
    if a == [] {
      assert a + b == b;
    } else {
      assert (a + b)[0] == a[0] && (a + b)[1..] == a[1..] + b;
      MissingAppend(a[1..], b, present);
    }
  }

  /** What to boot and what to evict; hash-map iteration fixes the eviction order only. */
  method Reconcile(desired: seq<WorkloadSpec>, pods: map<string, Pod>)
    returns (toBoot: seq<WorkloadSpec>, toEvict: seq<string>)
    ensures toBoot == Missing(desired, RunningIds(pods))
    ensures Lists(toEvict, Surplus(desired, pods))
  {
    var desiredIds, runningIds := DesiredIds(desired), RunningIds(pods);
    toBoot := ToBoot(desired, runningIds);
    toEvict := ToEvict(desired, desiredIds, pods);
  }

  method ToBoot(desired: seq<WorkloadSpec>, runningIds: set<string>) returns (toBoot: seq<WorkloadSpec>)
    ensures toBoot == Missing(desired, runningIds)
  {
    toBoot := [];
    for i := 0 to |desired|
      invariant toBoot == Missing(desired[..i], runningIds)
    {
      MissingAppend(desired[..i], [desired[i]], runningIds);
      assert desired[..i + 1] == desired[..i] + [desired[i]];
      if desired[i].workloadId !in runningIds { toBoot := toBoot + [desired[i]]; }
    }
    assert desired[..|desired|] == desired;
  }

  method ToEvict(ghost desired: seq<WorkloadSpec>, desiredIds: set<string>, pods: map<string, Pod>)
    returns (toEvict: seq<string>)
    requires desiredIds == DesiredIds(desired)
    ensures Lists(toEvict, Surplus(desired, pods))
  {
    hide DesiredIds, Lists;
    toEvict := [];
    var rest := pods.Keys;
    ghost var surplus := Surplus(desired, pods);
    assert surplus - rest == {};
    ListsNone();
    while rest != {}
      invariant rest <= pods.Keys
      invariant Lists(toEvict, surplus - rest)
    {
      var id :| id in rest;
      if Active(pods[id]) && pods[id].workloadId !in desiredIds {
        ListsMore(toEvict, surplus - rest, id);
        assert surplus - (rest - {id}) == surplus - rest + {id};
        toEvict := toEvict + [id];
      } else {
        assert surplus - (rest - {id}) == surplus - rest;
      }
      rest := rest - {id};
    }
    assert surplus - rest == surplus;
  }

  lemma ListsNone()
    ensures Lists([], {})
  {
  }

  lemma ListsMore(q: seq<string>, s: set<string>, x: string)
    requires Lists(q, s) && x !in s
    ensures Lists(q + [x], s + {x})
  {
  }
}
