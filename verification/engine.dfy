/** Failures of calls into the browser-automation engine.

    The engine itself is not modelled. Instead, the outcomes of engine calls are supplied
    up front as a sequence: entry `i` says whether the `i`-th call throws (and with which
    fault) or returns normally. Past the end of the sequence every call returns normally.
 */
module Engine {
  import opened Wrappers

  /** The media type and file extension of every screenshot attachment. */
  const PngMimeType: string := "image/png"
  const PngExtension: string := "png"

  /** An exception thrown by the engine; `code` tells faults apart. */
  datatype Fault = Fault(code: nat)

  /** Outcomes of engine calls, in call order; `None` means the call returns normally. */
  type Faults = seq<Option<Fault>>

  /** The outcome of call number `i`. */
  function FaultAt(fs: Faults, i: nat): (r: Option<Fault>)
    ensures i >= |fs| ==> r == None
    ensures i < |fs| ==> r == fs[i]
  {
    if i < |fs| then fs[i] else None
  }

  /** Among the `m` calls starting at number `from`, the offset of the first that throws, or
      `m` when all of them return normally. */
  function FirstFault(fs: Faults, from: nat, m: nat): (n: nat)
    ensures n <= m
    ensures forall j: nat :: from <= j < from + n ==> FaultAt(fs, j).None?
    ensures n < m ==> FaultAt(fs, from + n).Some?
    decreases m
  {
    if m == 0 then 0
    else if FaultAt(fs, from).Some? then 0
    else
      1 + FirstFault(fs, from + 1, m - 1)
  }

  /** The first failing offset is determined by the outcomes alone: it is the unique `n` with
      only normal returns before it and a throw at it (or `m` when there is none). */
  lemma FirstFaultUnique(fs: Faults, from: nat, m: nat, n: nat)
    requires n <= m
    requires forall j: nat :: from <= j < from + n ==> FaultAt(fs, j).None?
    requires n < m ==> FaultAt(fs, from + n).Some?
    ensures FirstFault(fs, from, m) == n
  {
  }

  /** Looking one call later and one call less shifts the first failure by one. */
  lemma FirstFaultStep(fs: Faults, from: nat, m: nat)
    requires m > 0
    requires FaultAt(fs, from).None?
    ensures FirstFault(fs, from, m) == 1 + FirstFault(fs, from + 1, m - 1)
  {
  }

  /** `FirstFaultStep` for callers that hold the next call number and the remaining count
      under other names. */
  lemma FirstFaultShift(fs: Faults, from: nat, from1: nat, m: nat, m1: nat)
    requires from1 == from + 1 && m == m1 + 1
    requires FaultAt(fs, from).None?
    ensures FirstFault(fs, from, m) == 1 + FirstFault(fs, from1, m1)
  {
  }
}
