/** Pods and their states (src/workloads/pod_manager.rs). */
module Pods {
  import opened Base

  datatype Runtime = Containerd | CloudHypervisor

  datatype PodState = Pending | Booting | Running | Terminating | Stopped

  datatype Pod = Pod(
    podId: string,
    workloadId: string,
    tenantId: string,
    role: string,
    runtime: Runtime,
    state: PodState,
    started: bool,
    policyEnforced: bool,
    routerConnected: bool,
    restartCount: nat,
    pid: Option<u32>,
    fingerprint: Bytes,
    probeReady: bool,
    probeLive: bool,
    probeFailureReported: bool,
    probeEverPassed: bool)

  function NewPod(podId: string, workloadId: string, tenantId: string, role: string, runtime: Runtime,
                  fingerprint: Bytes): Pod
  {
    Pod(podId, workloadId, tenantId, role, runtime, Pending, false, false, false, 0, None, fingerprint,
        false, false, false, false)
  }

  /** The states the reconciler counts as present. */
  predicate Active(pod: Pod) { !(pod.state.Terminating? || pod.state.Stopped?) }

  function BeginEviction(pod: Pod): Pod {
    if pod.state.Pending? || pod.state.Booting? || pod.state.Running? then pod.(state := Terminating) else pod
  }
}
