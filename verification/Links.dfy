/** The dataflow graph that the pruner rewrites and the pipeline schedules. */
module Links {

  datatype LinkType = SourceLink | InternalLink | SinkLink

  /** A connection from an output port of one node instance to an input port of another. */
  datatype Link = Link(
    srcPort: int, src: string, srcFormat: int,
    dstPort: int, dst: string, dstFormats: seq<int>,
    kind: LinkType)

  /** The mode bits of a node that decide how it is scheduled: frame by frame, in place, virtual, a virtual sink,
      parallel; and whether it hands on its inputs, or its outputs, while it still runs. */
  datatype NodeMask = NodeMask(
    sigframe: bool, inplace: bool, virtual: bool, virtualSink: bool,
    concurrent: bool, releaseInput: bool, releaseOutput: bool)

  /** A node's input links carry images into it: sink links end at the application instead. */
  predicate EntersNode(l: Link, n: string) {
    l.dst == n && !l.kind.SinkLink?
  }

  predicate Internal(l: Link, n: string) {
    l.dst == n && l.kind.InternalLink?
  }

  predicate LeavesNode(l: Link, n: string) {
    l.src == n && !l.kind.SourceLink?
  }
}
