/** The control-flow graph of a function: blocks numbered from 0, with their successors. */
module FlowCharts {

  datatype Block = Block(start: nat, end: nat, succs: seq<nat>)

  type FlowChart = seq<Block>

  predicate WellFormed(fc: FlowChart) {
    forall n, i :: 0 <= n < |fc| && 0 <= i < |fc[n].succs| ==> fc[n].succs[i] < |fc|
  }

  /** Block n of the flowchart has these addresses. */
  predicate HasBlock(fc: FlowChart, n: int, start: nat, end: nat) {
    0 <= n < |fc| && start == fc[n].start && end == fc[n].end
  }

  ghost predicate Edge(fc: FlowChart, u: nat, v: nat) {
    u < |fc| && v in fc[u].succs
  }
}
