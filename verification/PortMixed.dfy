/** Disabled input ports and disabled output ports in one list. */
module PortMixed {
  import opened Collections
  import opened Links
  import opened Contraction
  import opened PortPrune

  // ----- One more cascade, whatever has been deleted at the other end -----

  /** A link is gone as a start that was served, or because the node it enters from has nothing left. */
  ghost predicate Explained(g: Ends, gone: set<int>, served: set<int>) {
    forall y :: y in gone && y !in served && 0 <= y < |g.far| ==> forall e :: !Left(g.near, gone, g.far[y], e)
  }

  ghost function Whole(g: Ends, starts: seq<int>): set<int> {
    CascadeOf(g, {}, {}, Elements(starts))
  }

  /** A set closed in the whole graph that contains what is gone is closed in what remains. */
  lemma ClosedInRest(g: Ends, gone: set<int>, goneFar: set<int>, links: set<int>)
    requires Closed(g, {}, {}, links) && gone <= links
    ensures Closed(g, gone, goneFar, links)
  {
    forall n, y | Drained(g.near, gone, links, n) && Left(g.far, goneFar, n, y) ensures y in links {
      DrainedBefore(g.near, gone, links, n);
      assert Left(g.far, {}, n, y);
    }
  }

  lemma StepWithin(g: Ends, rank: string -> int, starts: seq<int>, s: int, gone: set<int>, goneFar: set<int>)
    requires Oriented(g, rank) && Starts(g, {}, starts + [s]) && gone <= Whole(g, starts)
    ensures gone + CascadeOf(g, gone, goneFar, {s}) <= Whole(g, starts + [s])
    ensures Closed(g, {}, {}, Whole(g, starts + [s]))
  {
    var all := Whole(g, starts + [s]);
    StartsInRange(g, {}, rank, starts, s);
    CascadeMonotone(g, {}, Elements(starts), Elements(starts + [s]));
    CascadeLeast(g, {}, {}, Elements(starts + [s]));
    ClosedInRest(g, gone, goneFar, all);
    CascadeWithin(g, gone, goneFar, {s}, all);
  }

  /** A start that was served is not pulled in by the next cascade. */
  lemma ServedNotPulled(g: Ends, rank: string -> int, starts: seq<int>, i: nat, gone: set<int>, links: set<int>)
    requires Oriented(g, rank) && Starts(g, {}, starts) && Independent(g, {}, starts) && i < |starts|
    requires gone + links <= Whole(g, starts)
    ensures 0 <= starts[i] < |g.far| && !Drained(g.near, gone, links, g.far[starts[i]])
  {
    var others := CascadeOf(g, {}, {}, Others(starts, i));
    StartNotDrained(g, {}, rank, starts, i, others);
    var wide, n := others + LowLinks(g, rank, starts[i]), g.far[starts[i]];
    CascadeWithin(g, {}, {}, Elements(starts), wide);
    if Drained(g.near, gone, links, n) {
      forall x | Left(g.near, {}, n, x) ensures x in wide {
        assert x in gone || Left(g.near, gone, n, x);
      }
      assert Drained(g.near, {}, wide, n);
    }
  }

  /** Closed even without what was gone before. */
  lemma ClosedWithoutGone(g: Ends, rank: string -> int, starts: seq<int>, s: int,
                          gone: set<int>, goneFar: set<int>, served: set<int>)
    requires Oriented(g, rank) && Starts(g, {}, starts + [s]) && Independent(g, {}, starts + [s])
    requires gone <= Whole(g, starts) && served <= Elements(starts) && Explained(g, gone, served)
    ensures var c := CascadeOf(g, gone, goneFar, {s}); Closed(g, gone, goneFar, c - gone)
  {
    var c := CascadeOf(g, gone, goneFar, {s});
    StepWithin(g, rank, starts, s, gone, goneFar);
    assert {s} <= UpTo(|g.near|) by {
      assert s in starts + [s];
    }
    CascadeLeast(g, gone, goneFar, {s});
    forall n, y | Drained(g.near, gone, c - gone, n) && Left(g.far, goneFar, n, y) ensures y in c - gone {
      DrainedMore(g.near, gone, c - gone, c, n);
      if y in gone {
        var e :| e in c - gone && 0 <= e < |g.near| && g.near[e] == n;
        assert Left(g.near, gone, n, e);
        assert y in served;
        var i :| 0 <= i < |starts| && starts[i] == y;
        assert (starts + [s])[i] == y;
        ServedNotPulled(g, rank, starts + [s], i, gone, c - gone);
      }
    }
  }

  lemma MixedFresh(g: Ends, rank: string -> int, starts: seq<int>, s: int,
                   gone: set<int>, goneFar: set<int>, served: set<int>)
    requires Oriented(g, rank) && Starts(g, {}, starts + [s]) && Independent(g, {}, starts + [s])
    requires gone <= Whole(g, starts) && served <= Elements(starts) && Explained(g, gone, served)
    ensures Fresh(g, gone, goneFar, s)
  {
    var c := CascadeOf(g, gone, goneFar, {s});
    ClosedWithoutGone(g, rank, starts, s, gone, goneFar, served);
    assert |g.far| == |g.near|;
    IndependentPrefix(g, {}, starts, s);
    assert s in starts + [s] && {s} <= UpTo(|g.near|);
    CascadeLeast(g, gone, goneFar, {s});
    CascadeWithin(g, gone, goneFar, {s}, c - gone);
  }

  lemma MixedExplained(g: Ends, gone: set<int>, goneFar: set<int>, served: set<int>, s: int)
    requires |g.far| == |g.near| && 0 <= s < |g.near| && Explained(g, gone, served)
    ensures Explained(g, gone + CascadeOf(g, gone, goneFar, {s}), served + {s})
    ensures s in CascadeOf(g, gone, goneFar, {s})
  {
    var c := CascadeOf(g, gone, goneFar, {s});
    CascadeLeast(g, gone, goneFar, {s});
    forall y | y in gone + c && y !in served + {s} && 0 <= y < |g.far|
      ensures forall e :: !Left(g.near, gone + c, g.far[y], e)
    {
      forall e | Left(g.near, gone + c, g.far[y], e) ensures false {
        assert Left(g.near, gone, g.far[y], e);
        assert y in c;
        if !Drained(g.near, gone, c, g.far[y]) {
          ClosedWithout(g, gone, goneFar, c, y);
          CascadeWithin(g, gone, goneFar, {s}, c - {y});
        }
      }
    }
  }

  // ----- The lists -----

  function OfType(requests: seq<PortRequest>, portType: PortType): seq<PortRequest> {
    if requests == [] then []
    else OfType(requests[..|requests| - 1], portType)
         + if requests[|requests| - 1].portType == portType then [requests[|requests| - 1]] else []
  }

  /** The links that the requests for one kind of port name. */
  function NamedOf(links: seq<Link>, requests: seq<PortRequest>, portType: PortType): seq<int> {
    Named(links, OfType(requests, portType))
  }

  predicate OnePerPort(links: seq<Link>) {
    && (forall i, j :: 0 <= i < j < |links| ==> links[i].dst != links[j].dst || links[i].dstPort != links[j].dstPort)
    && (forall i, j :: 0 <= i < j < |links| ==> links[i].src != links[j].src || links[i].srcPort != links[j].srcPort)
  }

  /** The last request names one link more, for ports of its own kind only. */
  lemma NamedNext(links: seq<Link>, requests: seq<PortRequest>, portType: PortType)
    requires requests != []
    ensures var before, r := requests[..|requests| - 1], requests[|requests| - 1];
            var x := FirstLink(links, r, {}, 0);
            NamedOf(links, requests, portType)
            == if r.portType == portType && x != -1 then NamedOf(links, before, portType) + [x]
               else NamedOf(links, before, portType)
  {
    var before, r := requests[..|requests| - 1], requests[|requests| - 1];
    var less := OfType(before, portType);
    if r.portType == portType {
      NextRequest(links, less + [r]);
      assert (less + [r])[..|less + [r]| - 1] == less;
    } else {
      assert less + [] == less;
    }
  }

  /** With one link per port, a request finds the link it names, or nothing if that is gone. */
  lemma FoundOrGone(links: seq<Link>, r: PortRequest, gone: set<int>)
    requires OnePerPort(links)
    ensures var x, named := FirstLink(links, r, gone, 0), FirstLink(links, r, {}, 0);
            x == if named == -1 || named in gone then -1 else named
  {
  }

  /** One kind of request so far: what it has deleted, and which starts it has served. */
  ghost predicate SideOk(g: Ends, gone: set<int>, starts: seq<int>, served: set<int>) {
    gone <= Whole(g, starts) && served <= Elements(starts) && Explained(g, gone, served)
  }

  ghost predicate MixedOk(links: seq<Link>, requests: seq<PortRequest>, d: Deleted, ins: set<int>, outs: set<int>) {
    && SideOk(Upstream(links), d.outs, NamedOf(links, requests, Input), ins)
    && SideOk(Downstream(links), d.ins, NamedOf(links, requests, Output), outs)
    && Elements(NamedOf(links, requests, Input)) + Elements(NamedOf(links, requests, Output)) <= d.outs + d.ins
  }

  /** A request that finds its link already gone. */
  lemma SideSkips(g: Ends, rank: string -> int, gone: set<int>, starts: seq<int>, served: set<int>, s: int)
    requires Oriented(g, rank) && Starts(g, {}, starts + [s]) && SideOk(g, gone, starts, served)
    ensures SideOk(g, gone, starts + [s], served)
  {
    StepWithin(g, rank, starts, s, gone, {});
    StartsInRange(g, {}, rank, starts, s);
  }

  /** A request that is served. */
  lemma SideServes(g: Ends, rank: string -> int, gone: set<int>, goneFar: set<int>, starts: seq<int>, served: set<int>, s: int)
    requires Oriented(g, rank) && Starts(g, {}, starts + [s]) && Independent(g, {}, starts + [s])
    requires SideOk(g, gone, starts, served)
    ensures Fresh(g, gone, goneFar, s)
    ensures SideOk(g, gone + CascadeOf(g, gone, goneFar, {s}), starts + [s], served + {s})
    ensures s in CascadeOf(g, gone, goneFar, {s})
  {
    assert s in starts + [s] && |g.far| == |g.near|;
    StartsInRange(g, {}, rank, starts, s);
    MixedFresh(g, rank, starts, s, gone, goneFar, served);
    StepWithin(g, rank, starts, s, gone, goneFar);
    MixedExplained(g, gone, goneFar, served, s);
  }

  lemma {:induction false} MixedServed(links: seq<Link>, requests: seq<PortRequest>, rank: string -> int)
    returns (ins: set<int>, outs: set<int>)
    requires Ranked(links, rank) && OnePerPort(links)
    requires Independent(Upstream(links), {}, NamedOf(links, requests, Input))
    requires Independent(Downstream(links), {}, NamedOf(links, requests, Output))
    ensures ServeAll(links, requests).Pruned? && MixedOk(links, requests, ServeAll(links, requests).deleted, ins, outs)
  {
    ServeLast(links, requests);
    hide *;
    if requests == [] {
      ins, outs := {}, {};
      NothingServed(links);
    } else {
      var before, r := requests[..|requests| - 1], requests[|requests| - 1];
      BeforeIndependent(links, requests, rank);
      ins, outs := MixedServed(links, before, rank);
      var d := ServeAll(links, before).deleted;
      assert before + [r] == requests;
      if r.portType.Input? {
        ins := NextInput(links, before, r, rank, d, ins, outs);
      } else {
        outs := NextOutput(links, before, r, rank, d, ins, outs);
      }
    }
  }

  lemma ServeLast(links: seq<Link>, requests: seq<PortRequest>)
    ensures requests == [] ==> ServeAll(links, requests) == Pruned(Deleted({}, {}))
    ensures requests != [] ==>
              var before, r := requests[..|requests| - 1], requests[|requests| - 1];
              ServeAll(links, before).Pruned? ==>
                ServeAll(links, requests) == Serve(links, ServeAll(links, before).deleted, r)
  {
    hide Serve;
  }

  lemma NothingServed(links: seq<Link>)
    ensures MixedOk(links, [], Deleted({}, {}), {}, {})
  {
    NothingRemoved(Upstream(links));
    NothingRemoved(Downstream(links));
  }

  lemma BeforeIndependent(links: seq<Link>, requests: seq<PortRequest>, rank: string -> int)
    requires Ranked(links, rank) && requests != []
    requires Independent(Upstream(links), {}, NamedOf(links, requests, Input))
    requires Independent(Downstream(links), {}, NamedOf(links, requests, Output))
    ensures Independent(Upstream(links), {}, NamedOf(links, requests[..|requests| - 1], Input))
    ensures Independent(Downstream(links), {}, NamedOf(links, requests[..|requests| - 1], Output))
  {
    BothOriented(links, rank);
    var before, r := requests[..|requests| - 1], requests[|requests| - 1];
    var x := FirstLink(links, r, {}, 0);
    NamedNext(links, requests, Input);
    NamedNext(links, requests, Output);
    if x != -1 {
      if r.portType.Input? {
        NamedInRange(links, Upstream(links), OfType(before, Input), x);
        IndependentPrefix(Upstream(links), {}, NamedOf(links, before, Input), x);
      } else {
        NamedInRange(links, Downstream(links), OfType(before, Output), x);
        IndependentPrefix(Downstream(links), {}, NamedOf(links, before, Output), x);
      }
    }
  }

  lemma NextInput(links: seq<Link>, before: seq<PortRequest>, r: PortRequest, rank: string -> int, d: Deleted,
                  ins: set<int>, outs: set<int>)
    returns (ins': set<int>)
    requires Ranked(links, rank) && OnePerPort(links) && MixedOk(links, before, d, ins, outs) && r.portType.Input?
    requires Independent(Upstream(links), {}, NamedOf(links, before + [r], Input))
    ensures Serve(links, d, r).Pruned? && MixedOk(links, before + [r], Serve(links, d, r).deleted, ins', outs)
  {
    BothOriented(links, rank);
    LastRequest(links, before, r);
    FoundOrGone(links, r, d.ins);
    ins' := ins;
    var x, starts := FirstLink(links, r, {}, 0), NamedOf(links, before, Input);
    if x != -1 {
      NamedInRange(links, Upstream(links), OfType(before, Input), x);
    }
    hide *;
    if x == -1 {
      NothingNamed(links, before, r, d, ins, outs);
    } else if x in d.ins {
      SideSkips(Upstream(links), rank, d.outs, starts, ins, x);
      InputSkipped(links, before, r, d, ins, outs, x);
    } else {
      SideServes(Upstream(links), rank, d.outs, d.ins, starts, ins, x);
      ins' := ins + {x};
      InputServed(links, before, r, d, ins, outs, x);
    }
  }

  lemma LastRequest(links: seq<Link>, before: seq<PortRequest>, r: PortRequest)
    ensures var x := FirstLink(links, r, {}, 0);
            && NamedOf(links, before + [r], Input)
               == (if r.portType.Input? && x != -1 then NamedOf(links, before, Input) + [x] else NamedOf(links, before, Input))
            && NamedOf(links, before + [r], Output)
               == (if r.portType.Output? && x != -1 then NamedOf(links, before, Output) + [x] else NamedOf(links, before, Output))
  {
    assert (before + [r])[..|before + [r]| - 1] == before;
    NamedNext(links, before + [r], Input);
    NamedNext(links, before + [r], Output);
  }

  lemma NothingNamed(links: seq<Link>, before: seq<PortRequest>, r: PortRequest, d: Deleted, ins: set<int>, outs: set<int>)
    requires OnePerPort(links) && MixedOk(links, before, d, ins, outs) && FirstLink(links, r, {}, 0) == -1
    ensures Serve(links, d, r) == Pruned(d) && MixedOk(links, before + [r], d, ins, outs)
  {
    hide SideOk;
    LastRequest(links, before, r);
    FoundOrGone(links, r, d.ins);
    FoundOrGone(links, r, d.outs);
  }

  lemma InputSkipped(links: seq<Link>, before: seq<PortRequest>, r: PortRequest, d: Deleted,
                     ins: set<int>, outs: set<int>, x: int)
    requires OnePerPort(links) && MixedOk(links, before, d, ins, outs) && r.portType.Input?
    requires x == FirstLink(links, r, {}, 0) != -1 && x in d.ins
    requires SideOk(Upstream(links), d.outs, NamedOf(links, before, Input) + [x], ins)
    ensures Serve(links, d, r) == Pruned(d) && MixedOk(links, before + [r], d, ins, outs)
  {
    hide SideOk;
    LastRequest(links, before, r);
    FoundOrGone(links, r, d.ins);
  }

  lemma InputServed(links: seq<Link>, before: seq<PortRequest>, r: PortRequest, d: Deleted,
                    ins: set<int>, outs: set<int>, x: int)
    requires OnePerPort(links) && MixedOk(links, before, d, ins, outs) && r.portType.Input?
    requires x == FirstLink(links, r, {}, 0) != -1 && x !in d.ins && Fresh(Upstream(links), d.outs, d.ins, x)
    requires var c := CascadeOf(Upstream(links), d.outs, d.ins, {x});
             x in c && SideOk(Upstream(links), d.outs + c, NamedOf(links, before, Input) + [x], ins + {x})
    ensures Serve(links, d, r).Pruned? && MixedOk(links, before + [r], Serve(links, d, r).deleted, ins + {x}, outs)
  {
    LastRequest(links, before, r);
    FoundOrGone(links, r, d.ins);
    var d' := d.(outs := d.outs + CascadeOf(Upstream(links), d.outs, d.ins, {x}));
    assert Serve(links, d, r) == Pruned(d');
    hide SideOk;
    hide CascadeOf;
    hide Fresh;
    hide Serve;
    hide FirstLink;
    hide NamedOf;
    assert SideOk(Upstream(links), d'.outs, NamedOf(links, before + [r], Input), ins + {x});
    assert SideOk(Downstream(links), d'.ins, NamedOf(links, before + [r], Output), outs);
    OneMoreNamed(NamedOf(links, before, Input), x);
  }

  lemma OneMoreNamed(starts: seq<int>, x: int)
    ensures Elements(starts + [x]) == Elements(starts) + {x}
  {
  }

  // The same at the other end.

  lemma NextOutput(links: seq<Link>, before: seq<PortRequest>, r: PortRequest, rank: string -> int, d: Deleted,
                   ins: set<int>, outs: set<int>)
    returns (outs': set<int>)
    requires Ranked(links, rank) && OnePerPort(links) && MixedOk(links, before, d, ins, outs) && r.portType.Output?
    requires Independent(Downstream(links), {}, NamedOf(links, before + [r], Output))
    ensures Serve(links, d, r).Pruned? && MixedOk(links, before + [r], Serve(links, d, r).deleted, ins, outs')
  {
    BothOriented(links, rank);
    LastRequest(links, before, r);
    FoundOrGone(links, r, d.outs);
    outs' := outs;
    var x, starts := FirstLink(links, r, {}, 0), NamedOf(links, before, Output);
    if x != -1 {
      NamedInRange(links, Downstream(links), OfType(before, Output), x);
    }
    hide *;
    if x == -1 {
      NothingNamed(links, before, r, d, ins, outs);
    } else if x in d.outs {
      SideSkips(Downstream(links), n => -rank(n), d.ins, starts, outs, x);
      OutputSkipped(links, before, r, d, ins, outs, x);
    } else {
      SideServes(Downstream(links), n => -rank(n), d.ins, d.outs, starts, outs, x);
      outs' := outs + {x};
      OutputServed(links, before, r, d, ins, outs, x);
    }
  }

  lemma OutputSkipped(links: seq<Link>, before: seq<PortRequest>, r: PortRequest, d: Deleted,
                      ins: set<int>, outs: set<int>, x: int)
    requires OnePerPort(links) && MixedOk(links, before, d, ins, outs) && r.portType.Output?
    requires x == FirstLink(links, r, {}, 0) != -1 && x in d.outs
    requires SideOk(Downstream(links), d.ins, NamedOf(links, before, Output) + [x], outs)
    ensures Serve(links, d, r) == Pruned(d) && MixedOk(links, before + [r], d, ins, outs)
  {
    hide SideOk;
    LastRequest(links, before, r);
    FoundOrGone(links, r, d.outs);
  }

  lemma OutputServed(links: seq<Link>, before: seq<PortRequest>, r: PortRequest, d: Deleted,
                     ins: set<int>, outs: set<int>, x: int)
    requires OnePerPort(links) && MixedOk(links, before, d, ins, outs) && r.portType.Output?
    requires x == FirstLink(links, r, {}, 0) != -1 && x !in d.outs && Fresh(Downstream(links), d.ins, d.outs, x)
    requires var c := CascadeOf(Downstream(links), d.ins, d.outs, {x});
             x in c && SideOk(Downstream(links), d.ins + c, NamedOf(links, before, Output) + [x], outs + {x})
    ensures Serve(links, d, r).Pruned? && MixedOk(links, before + [r], Serve(links, d, r).deleted, ins, outs + {x})
  {
    LastRequest(links, before, r);
    FoundOrGone(links, r, d.outs);
    var d' := d.(ins := d.ins + CascadeOf(Downstream(links), d.ins, d.outs, {x}));
    assert Serve(links, d, r) == Pruned(d');
    hide SideOk;
    hide CascadeOf;
    hide Fresh;
    hide Serve;
    hide FirstLink;
    hide NamedOf;
    assert SideOk(Upstream(links), d'.outs, NamedOf(links, before + [r], Input), ins);
    assert SideOk(Downstream(links), d'.ins, NamedOf(links, before + [r], Output), outs + {x});
    OneMoreNamed(NamedOf(links, before, Output), x);
  }

  /** With one link per port: if no link named by an input request is implied by the other input requests, and
      none named by an output request by the other output requests, then the list goes through, however the
      two kinds are mixed. It deletes every named link, at one end or the other, and at either end no more
      than the cascades of that kind would delete by themselves. */
  lemma MixedPruning(links: seq<Link>, requests: seq<PortRequest>, rank: string -> int)
    requires Ranked(links, rank) && OnePerPort(links)
    requires Independent(Upstream(links), {}, NamedOf(links, requests, Input))
    requires Independent(Downstream(links), {}, NamedOf(links, requests, Output))
    ensures ServeAll(links, requests).Pruned?
    ensures var d := ServeAll(links, requests).deleted;
            var inputs, outputs := NamedOf(links, requests, Input), NamedOf(links, requests, Output);
            && d.outs <= CascadeOf(Upstream(links), {}, {}, Elements(inputs))
            && d.ins <= CascadeOf(Downstream(links), {}, {}, Elements(outputs))
            && Elements(inputs) + Elements(outputs) <= d.outs + d.ins
  {
    var ins, outs := MixedServed(links, requests, rank);
  }

  // ----- Why the order of the two kinds counts otherwise -----

  lemma AllDownstream(a: Link, b: Link)
    requires a.dst == b.src && b.src != b.dst
    ensures {0, 1} <= CascadeOf(Downstream([a, b]), {}, {}, {0})
  {
    var g := Downstream([a, b]);
    forall s | Closed(g, {}, {}, s) && {0} <= s ensures 1 in s {
      assert 0 in s && g.near[0] == a.dst && g.near[1] != a.dst;
      assert Drained(g.near, {}, s, a.dst);
      assert Left(g.far, {}, a.dst, 1);
    }
  }

  lemma SkippedAfter(a: Link, b: Link, r: PortRequest)
    requires a.dst == b.src && b.src != b.dst && a.src != a.dst && r == PortRequest(a.src, a.srcPort, Output)
    ensures ServeAll([a, b], [r]).Pruned? && {0, 1} <= ServeAll([a, b], [r]).deleted.ins
  {
    var links := [a, b];
    AllDownstream(a, b);
    assert [r][..0] == [] && ServeAll(links, []) == Pruned(Deleted({}, {}));
    assert FirstLink(links, r, {}, 0) == 0;
  }

  /** A disabled output port hides links from the input ports that come after it in the list: the two input
      ports that collide alone, or in front of it, are then skipped. So for lists that mix the kinds no
      condition on the named links alone decides. */
  lemma OrderCounts(a: Link, b: Link)
    requires a.dst == b.src && a.src != a.dst && b.src != b.dst && a.src != b.dst
    ensures var inputs := [PortRequest(a.dst, a.dstPort, Input), PortRequest(b.dst, b.dstPort, Input)];
            var outputs := [PortRequest(a.src, a.srcPort, Output)];
            ServeAll([a, b], inputs + outputs) == StaleErase && ServeAll([a, b], outputs + inputs).Pruned?
  {
    var links := [a, b];
    var ra, rb := PortRequest(a.dst, a.dstPort, Input), PortRequest(b.dst, b.dstPort, Input);
    var r := PortRequest(a.src, a.srcPort, Output);
    TwoRequestsCollide(a, b);
    SkippedAfter(a, b, r);
    var d := ServeAll(links, [r]).deleted;
    assert ([ra, rb] + [r])[..2] == [ra, rb];
    var all := [r] + [ra, rb];
    assert all[..2] == [r, ra] && [r, ra][..1] == [r];
    hide Fresh;
    hide CascadeOf;
    assert FirstLink(links, ra, d.ins, 0) == -1 && FirstLink(links, rb, d.ins, 0) == -1;
    assert ServeAll(links, [r, ra]) == Pruned(d);
  }
}
