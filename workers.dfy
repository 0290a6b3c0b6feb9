/** The size of the worker pool: twice the CPU count, capped at 50, with a
    CPU count of 4 assumed when the platform cannot report one. */
module Workers {

  /** What multiprocessing.cpu_count gave: a count, or NotImplementedError. */
  datatype CpuProbe = Detected(count: nat) | NotImplemented

  const FallbackCpus: nat := 4
  const MaxProcesses: nat := 50

  function Cpus(probe: CpuProbe): nat
  {
    match probe
    case Detected(n) => n
    case NotImplemented => FallbackCpus
  }

  function WorkerCount(probe: CpuProbe): (w: nat)
    // w is the least of 2 * cpus and the cap
    ensures w <= MaxProcesses && w <= 2 * Cpus(probe)
    ensures w == MaxProcesses || w == 2 * Cpus(probe)
    ensures probe.NotImplemented? ==> w == 8
    ensures probe.Detected? && probe.count >= 1 ==> w >= 2
  {
    var doubled := Cpus(probe) * 2;
    if doubled < MaxProcesses then doubled else MaxProcesses
  }

  /** More CPUs never means fewer workers. */
  lemma WorkerCountMonotone(m: nat, n: nat)
    requires m <= n
    ensures WorkerCount(Detected(m)) <= WorkerCount(Detected(n))
  {
  }

  /** From 25 CPUs on, the cap decides. */
  lemma WorkerCountSaturates(n: nat)
    requires n >= 25
    ensures WorkerCount(Detected(n)) == MaxProcesses
  {
  }
}
