/** Which frames of a stream may still have buffers to come back: kept per stream as a window over the frame
    numbers, so that an offline switch can list what is pending. */
module ReturnWindow {

  datatype Entry = Entry(frame: int, returned: bool)

  predicate Increasing(frames: seq<int>) {
    forall i, j :: 0 <= i < j < |frames| ==> frames[i] < frames[j]
  }

  /** The requested frames from the oldest one on whose buffer has not come back. */
  function Open(frames: seq<int>, returned: set<int>): (r: seq<int>)
    ensures |r| <= |frames|
    ensures r == frames[|frames| - |r|..]
    ensures r != [] ==> r[0] !in returned
    ensures forall f :: f in frames && f !in r ==> f in returned
  {
    if frames == [] then []
    else if frames[0] in returned then
      assert forall f :: f in frames ==> f == frames[0] || f in frames[1..];
      Open(frames[1..], returned)
    else frames
  }

  function Flagged(frames: seq<int>, returned: set<int>): (r: seq<Entry>)
    ensures |r| == |frames|
    ensures forall i :: 0 <= i < |r| ==> r[i] == Entry(frames[i], frames[i] in returned)
  {
    seq(|frames|, i requires 0 <= i < |frames| => Entry(frames[i], frames[i] in returned))
  }

  function WindowOf(frames: seq<int>, returned: set<int>): seq<Entry> {
    Flagged(Open(frames, returned), returned)
  }

  /** Every frame whose buffer is outstanding is in the window, and the oldest frame in it is outstanding. */
  lemma PendingListed(frames: seq<int>, returned: set<int>, frame: int)
    requires frame in frames && frame !in returned
    ensures Entry(frame, false) in WindowOf(frames, returned)
    ensures WindowOf(frames, returned)[0].frame !in returned && WindowOf(frames, returned)[0].frame in frames
  {
    var open := Open(frames, returned);
    assert frame in open;
    var i :| 0 <= i < |open| && open[i] == frame;
    assert WindowOf(frames, returned)[i] == Entry(frame, false);
    assert open[0] in frames;
  }

  /** A new, later frame goes to the end. */
  lemma {:induction false} OpenMore(frames: seq<int>, returned: set<int>, frame: int)
    requires frame !in returned
    ensures Open(frames + [frame], returned) == Open(frames, returned) + [frame]
  {
    if frames == [] {
      assert frames + [frame] == [frame];
    } else {
      assert (frames + [frame])[1..] == frames[1..] + [frame];
      OpenMore(frames[1..], returned, frame);
    }
  }

  /** A buffer that comes back out of order leaves the window as long as it is ... */
  lemma {:induction false} OpenInside(frames: seq<int>, returned: set<int>, frame: int)
    requires Open(frames, returned) != [] && Open(frames, returned)[0] != frame
    ensures Open(frames, returned + {frame}) == Open(frames, returned)
  {
    if frames[0] in returned {
      OpenInside(frames[1..], returned, frame);
    }
  }

  /** ... and the oldest one lets the window advance. */
  lemma {:induction false} OpenAtHead(frames: seq<int>, returned: set<int>, frame: int)
    requires Open(frames, returned) != [] && Open(frames, returned)[0] == frame
    ensures Open(frames, returned + {frame}) == Open(Open(frames, returned), returned + {frame})
  {
    if frames[0] in returned {
      OpenAtHead(frames[1..], returned, frame);
    }
  }

  lemma FlaggedMore(frames: seq<int>, returned: set<int>, frame: int)
    requires frame !in returned
    ensures Flagged(frames + [frame], returned) == Flagged(frames, returned) + [Entry(frame, false)]
  {
  }

  lemma FlaggedMark(frames: seq<int>, returned: set<int>, i: nat)
    requires Increasing(frames) && i < |frames|
    ensures Flagged(frames, returned)[i := Entry(frames[i], true)] == Flagged(frames, returned + {frames[i]})
  {
    forall k | 0 <= k < |frames| && k != i ensures frames[k] != frames[i] {
      assert frames[k] < frames[i] || frames[i] < frames[k];
    }
  }

  lemma RegisterWindow(frames: seq<int>, returned: set<int>, frame: int)
    requires Increasing(frames) && (forall f :: f in frames ==> f < frame) && forall f :: f in returned ==> f in frames
    ensures Increasing(frames + [frame]) && frame !in returned
    ensures WindowOf(frames + [frame], returned) == WindowOf(frames, returned) + [Entry(frame, false)]
  {
    IncreasingMore(frames, frame);
    hide Increasing;
    hide Open;
    hide Flagged;
    OpenMore(frames, returned, frame);
    FlaggedMore(Open(frames, returned), returned, frame);
  }

  lemma IncreasingMore(frames: seq<int>, frame: int)
    requires Increasing(frames) && forall f :: f in frames ==> f < frame
    ensures Increasing(frames + [frame])
  {
    forall i | 0 <= i < |frames| ensures frames[i] < frame {
      assert frames[i] in frames;
    }
  }

  lemma MarkWindow(frames: seq<int>, returned: set<int>, i: nat)
    requires Increasing(frames) && i < |WindowOf(frames, returned)|
    ensures var frame := WindowOf(frames, returned)[i].frame;
            WindowOf(frames, returned)[i := Entry(frame, true)] == Flagged(Open(frames, returned), returned + {frame})
  {
    FlaggedMark(Open(frames, returned), returned, i);
  }

  lemma OpenStep(frames: seq<int>, returned: set<int>)
    ensures frames != [] && frames[0] in returned ==> Open(frames, returned) == Open(frames[1..], returned)
    ensures frames == [] || frames[0] !in returned ==> Open(frames, returned) == frames
  {
  }

  lemma NothingRequested()
    ensures Increasing([]) && WindowOf([], {}) == []
  {
    assert Open([], {}) == [];
  }

  class StreamWindow {
    var mFwkNumbers: seq<Entry>
    ghost var requested: seq<int>
    ghost var returned: set<int>

    ghost predicate Valid()
      reads this
    {
      Increasing(requested) && mFwkNumbers == WindowOf(requested, returned) && forall f :: f in returned ==> f in requested
    }

    constructor ()
      ensures Valid() && requested == [] && returned == {}
    {
      mFwkNumbers, requested, returned := [], [], {};
      new;
      NothingRequested();
      hide WindowOf;
      hide Increasing;
    }

    /** A request with a buffer of the stream; frame numbers increase. */
    method Register(frame: int)
      requires Valid() && forall f :: f in requested ==> f < frame
      modifies this
      ensures Valid() && requested == old(requested) + [frame] && returned == old(returned)
    {
      hide Increasing;
      hide WindowOf;
      RegisterWindow(requested, returned, frame);
      mFwkNumbers := mFwkNumbers + [Entry(frame, false)];
      requested := requested + [frame];
    }

    /** The buffer of a requested frame comes back, once, in whatever order. */
    method ForwardResult(frame: int)
      requires Valid() && frame in requested && frame !in returned
      modifies this
      ensures Valid() && requested == old(requested) && returned == old(returned) + {frame}
    {
      ghost var open := Open(requested, returned);
      PendingListed(requested, returned, frame);
      var head := mFwkNumbers[0].frame;
      MarkEntry(frame);
      returned := returned + {frame};
      if head == frame {
        OpenAtHead(requested, old(returned), frame);
        DropReturned(open);
      } else {
        OpenInside(requested, old(returned), frame);
      }
    }

    /** Flags the entry of a frame. */
    method MarkEntry(frame: int)
      requires Increasing(requested) && mFwkNumbers == WindowOf(requested, returned)
      requires Entry(frame, false) in mFwkNumbers
      modifies this`mFwkNumbers
      ensures mFwkNumbers == Flagged(Open(requested, returned), returned + {frame})
    {
      hide Open;
      hide Flagged;
      hide Increasing;
      hide WindowOf;
      var i := 0;
      while i < |mFwkNumbers| && mFwkNumbers[i].frame != frame
        invariant 0 <= i <= |mFwkNumbers| && forall k :: 0 <= k < i ==> mFwkNumbers[k].frame != frame
      {
        i := i + 1;
      }
      MarkWindow(requested, returned, i);
      mFwkNumbers := mFwkNumbers[i := Entry(frame, true)];
    }

    /** Erases from the front up to the first entry that is not flagged. */
    method DropReturned(ghost open: seq<int>)
      requires mFwkNumbers == Flagged(open, returned)
      modifies this`mFwkNumbers
      ensures mFwkNumbers == WindowOf(open, returned)
    {
      hide Open;
      hide Flagged;
      ghost var rest := open;
      while |mFwkNumbers| > 0 && mFwkNumbers[0].returned
        invariant mFwkNumbers == Flagged(rest, returned) && Open(rest, returned) == Open(open, returned)
        decreases |mFwkNumbers|
      {
        OpenStep(rest, returned);
        mFwkNumbers := mFwkNumbers[1..];
        rest := rest[1..];
      }
      OpenStep(rest, returned);
    }
  }

  predicate Holds(window: seq<Entry>, frame: int) {
    exists i :: 0 <= i < |window| && window[i].frame == frame
  }

  predicate Listed(pending: map<int, seq<int>>, frame: int, stream: int) {
    frame in pending && stream in pending[frame]
  }

  /** What is handed to the offline session: per frame, the streams whose windows hold it. */
  method CollectOfflineRequests(streams: seq<seq<Entry>>) returns (pending: map<int, seq<int>>)
    ensures forall f, s :: Listed(pending, f, s) <==> 0 <= s < |streams| && Holds(streams[s], f)
  {
    pending := map[];
    var s := 0;
    while s < |streams|
      invariant 0 <= s <= |streams|
      invariant forall f, t :: Listed(pending, f, t) <==> 0 <= t < s && Holds(streams[t], f)
    {
      var i := 0;
      while i < |streams[s]|
        invariant 0 <= i <= |streams[s]|
        invariant forall f, t :: Listed(pending, f, t) <==>
                                   (0 <= t < s && Holds(streams[t], f)) || (t == s && Holds(streams[s][..i], f))
      {
        var frame := streams[s][i].frame;
        var others := if frame in pending then pending[frame] else [];
        ghost var before := pending;
        pending := pending[frame := others + [s]];
        forall f, t ensures Listed(pending, f, t) <==> Listed(before, f, t) || (f == frame && t == s) {
        }
        i := i + 1;
      }
      assert streams[s][..i] == streams[s];
      s := s + 1;
    }
  }

  lemma HoldsOpen(frames: seq<int>, returned: set<int>, frame: int)
    ensures Holds(WindowOf(frames, returned), frame) <==> frame in Open(frames, returned)
    ensures frame in frames && frame !in returned ==> Holds(WindowOf(frames, returned), frame)
  {
    var open := Open(frames, returned);
    if frame in open {
      var i :| 0 <= i < |open| && open[i] == frame;
      assert WindowOf(frames, returned)[i].frame == frame;
    }
  }

  /** What goes offline: of each stream the frames from its oldest outstanding one on. No outstanding frame
      of any stream is missed, in whatever order the buffers have come back so far. */
  method OfflinePending(windows: seq<StreamWindow>) returns (pending: map<int, seq<int>>)
    requires forall w :: w in windows ==> w.Valid()
    ensures forall f, s :: Listed(pending, f, s) <==>
                             0 <= s < |windows| && f in Open(windows[s].requested, windows[s].returned)
    ensures forall f, s :: 0 <= s < |windows| && f in windows[s].requested && f !in windows[s].returned ==>
                             Listed(pending, f, s)
  {
    var streams: seq<seq<Entry>> := [];
    while |streams| < |windows|
      invariant |streams| <= |windows|
      invariant forall s :: 0 <= s < |streams| ==> streams[s] == windows[s].mFwkNumbers
    {
      streams := streams + [windows[|streams|].mFwkNumbers];
    }
    pending := CollectOfflineRequests(streams);
    forall f, s | 0 <= s < |windows|
      ensures Listed(pending, f, s) <==> f in Open(windows[s].requested, windows[s].returned)
      ensures f in windows[s].requested && f !in windows[s].returned ==> Listed(pending, f, s)
    {
      assert windows[s].Valid() && streams[s] == WindowOf(windows[s].requested, windows[s].returned);
      HoldsOpen(windows[s].requested, windows[s].returned, f);
    }
  }
}
