/** The rewriting of a raw pipeline for one request: ports first, nodes second, link types last. */
module Rebuild {
  import opened Links
  import opened Contraction
  import NodePrune
  import PortPrune

  predicate MentionedAt(s: string, part: string, i: nat) {
    i + |part| <= |s| && s[i..i + |part|] == part
  }

  predicate Mentions(s: string, part: string) {
    exists i: nat :: i <= |s| && MentionedAt(s, part, i)
  }

  /** A link is a source link exactly if it comes out of a source buffer, even if it leads into a sink buffer, and of
      all others a sink link exactly if it leads into a sink buffer. Nothing but the kind has changed. */
  predicate TypedAs(before: Link, after: Link) {
    && after == before.(kind := after.kind)
    && (after.kind.SourceLink? <==> Mentions(before.src, "SourceBuffer"))
    && (after.kind.SinkLink? <==> !Mentions(before.src, "SourceBuffer") && Mentions(before.dst, "SinkBuffer"))
  }

  predicate Typed(before: seq<Link>, after: seq<Link>) {
    |after| == |before| && forall i :: 0 <= i < |after| ==> TypedAs(before[i], after[i])
  }

  method FindPart(s: string, part: string) returns (found: bool)
    ensures found <==> Mentions(s, part)
  {
    var i: nat := 0;
    while i + |part| <= |s|
      invariant forall k: nat :: k < i ==> !MentionedAt(s, part, k)
      decreases |s| - i
    {
      if MentionedAt(s, part, i) {
        return true;
      }
      i := i + 1;
    }
    found := false;
  }

  method SetTypes(links: seq<Link>) returns (r: seq<Link>)
    ensures Typed(links, r)
  {
    r := links;
    var i := 0;
    while i < |r|
      invariant 0 <= i <= |r| == |links|
      invariant forall k :: 0 <= k < i ==> TypedAs(links[k], r[k])
      invariant forall k :: i <= k < |r| ==> r[k] == links[k]
    {
      var fromSource := FindPart(r[i].src, "SourceBuffer");
      var intoSink := FindPart(r[i].dst, "SinkBuffer");
      r := r[i := r[i].(kind := if fromSource then SourceLink else if intoSink then SinkLink else InternalLink)];
      i := i + 1;
    }
  }

  lemma KeptRanked(links: seq<Link>, gone: set<int>, picks: seq<int>, kept: seq<Link>, rank: string -> int)
    requires Ranked(links, rank) && PortPrune.Survive(links, gone, picks, kept)
    ensures Ranked(kept, rank)
  {
  }

  /** A rebuilt pipeline is the contraction, along the requested joins, of what the disabled ports leave of
      the raw pipeline, with every link's type set from its ends; a contraction exactly if no link is asked
      to join twice at one end. */
  method RebuildLinks(raw: seq<Link>, requests: seq<PortPrune.PortRequest>, disabled: seq<string>,
                      bypasses: seq<NodePrune.Bypass>, ghost rank: string -> int)
    returns (ok: bool, result: seq<Link>, ghost picks: seq<int>, ghost kept: seq<Link>,
             ghost untyped: seq<Link>, ghost chains: seq<seq<int>>)
    requires Ranked(raw, rank)
    ensures ok <==> PortPrune.ServeAll(raw, requests).Pruned?
    ensures ok ==>
              var d := PortPrune.ServeAll(raw, requests).deleted;
              var joins := NodePrune.RequestedJoins(kept, disabled, bypasses);
              && PortPrune.Survive(raw, d.outs + d.ins, picks, kept)
              && Typed(untyped, result)
              && (Matching(kept, joins) ==> Contracts(kept, joins, chains, untyped) && |result| == |kept| - |joins|)
              && (Matching(kept, joins) <==> exists cs :: Contracts(kept, joins, cs, untyped))
  {
    kept, untyped, chains := [], [], [];
    ok, result, picks := PortPrune.PipelinePortPrune(raw, requests, rank);
    if ok {
      ghost var d := PortPrune.ServeAll(raw, requests).deleted;
      kept := result;
      KeptRanked(raw, d.outs + d.ins, picks, kept, rank);
      result, chains := NodePrune.PipelineNodePrune(result, disabled, bypasses, rank);
      untyped := result;
      result := SetTypes(result);
    }
  }
}
