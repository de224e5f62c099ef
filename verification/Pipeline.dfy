/** The frame loop of the pipeline (pipeline.py): every frame is counted once. */
module Pipeline {
  import opened Assessment
  import opened Bytes
  import opened Diagnostics
  import opened Dissect

  const FRAGMENT_CODE := "IP_FRAGMENT_NOT_REASSEMBLED"
  const MALFORMED_CODE := "MALFORMED_PACKET"

  datatype Frame = Frame(number: nat, timestamp: int, link: LinkType, data: seq<Byte>)

  datatype Counters = Counters(
    packets: nat, tcp: nat, nonIp: nat, nonTcp: nat, unsupportedLink: nat, malformed: nat)

  /** `dissect` on a frame, with its IPv6 branch a parameter. */
  function Dissector(ipv6: seq<Byte> -> Dissection): Frame -> Dissection {
    (f: Frame) => DissectFrame(f.link, f.data, ipv6)
  }

  /** How many frames dissect to something `p` accepts. */
  function CountOf(frames: seq<Frame>, dissect: Frame -> Dissection, p: Dissection -> bool): nat {
    if frames == [] then 0
    else
      CountOf(frames[..|frames| - 1], dissect, p) +
      if p(dissect(frames[|frames| - 1])) then 1 else 0
  }

  /** The segments the frames carry, in capture order. */
  function Segments(frames: seq<Frame>, dissect: Frame -> Dissection): seq<Packet> {
    if frames == [] then []
    else
      var last := dissect(frames[|frames| - 1]);
      Segments(frames[..|frames| - 1], dissect) + if last.Tcp? then [last.packet] else []
  }

  /** The timestamps of the first and the last frame, when there is one. */
  function FirstTimestamp(frames: seq<Frame>): Option<int> {
    if frames == [] then None else Some(frames[0].timestamp)
  }

  function LastTimestamp(frames: seq<Frame>): Option<int> {
    if frames == [] then None else Some(frames[|frames| - 1].timestamp)
  }

  /** What the counters should say after these frames. */
  function Tallied(frames: seq<Frame>, dissect: Frame -> Dissection): Counters {
    Counters(
      |frames|,
      CountOf(frames, dissect, (d: Dissection) => d.Tcp?),
      CountOf(frames, dissect, (d: Dissection) => d.NotIp?),
      CountOf(frames, dissect, (d: Dissection) => d.NotTcp? || d.IpFragment?),
      CountOf(frames, dissect, (d: Dissection) => d.UnsupportedLinkType?),
      CountOf(frames, dissect, (d: Dissection) => d.Malformed?))
  }

  function Raised(d: Dissection, code: string): nat {
    if (d.IpFragment? && code == FRAGMENT_CODE) || (d.Malformed? && code == MALFORMED_CODE) then 1 else 0
  }

  function AllRaised(frames: seq<Frame>, dissect: Frame -> Dissection, code: string): nat {
    CountOf(frames, dissect, (d: Dissection) => Raised(d, code) == 1)
  }

  ghost predicate Reported(
    before: seq<Warning>, after: seq<Warning>, frames: seq<Frame>, dissect: Frame -> Dissection)
  {
    forall code :: Tally(after, code) == Tally(before, code) + AllRaised(frames, dissect, code)
  }

  /** One frame's effect on the counters. */
  function Counted(was: Counters, d: Dissection): Counters {
    Counters(
      was.packets + 1,
      was.tcp + if d.Tcp? then 1 else 0,
      was.nonIp + if d.NotIp? then 1 else 0,
      was.nonTcp + if d.NotTcp? || d.IpFragment? then 1 else 0,
      was.unsupportedLink + if d.UnsupportedLinkType? then 1 else 0,
      was.malformed + if d.Malformed? then 1 else 0)
  }

  lemma TalliedNext(front: seq<Frame>, f: Frame, dissect: Frame -> Dissection)
    ensures Tallied(front + [f], dissect) == Counted(Tallied(front, dissect), dissect(f))
  {
    assert (front + [f])[..|front|] == front;
  }

  lemma SegmentsNext(front: seq<Frame>, f: Frame, dissect: Frame -> Dissection)
    ensures Segments(front + [f], dissect) ==
            Segments(front, dissect) + if dissect(f).Tcp? then [dissect(f).packet] else []
  {
    assert (front + [f])[..|front|] == front;
  }

  /** What the loop has established after `frames`. */
  ghost predicate SoFar(
    c: Counters, observed: seq<Packet>, before: seq<Warning>, after: seq<Warning>,
    frames: seq<Frame>, dissect: Frame -> Dissection)
  {
    && c == Tallied(frames, dissect)
    && observed == Segments(frames, dissect)
    && Reported(before, after, frames, dissect)
  }

  /** The record a frame raises, if it raises one. */
  ghost predicate RaisedBy(d: Dissection, added: seq<Warning>) {
    match d
    case IpFragment => |added| == 1 && added[0].code == FRAGMENT_CODE
    case Malformed => |added| == 1 && added[0].code == MALFORMED_CODE
    case _ => added == []
  }

  lemma SoFarNext(
    c: Counters, observed: seq<Packet>, before: seq<Warning>, after: seq<Warning>,
    front: seq<Frame>, f: Frame, added: seq<Warning>, dissect: Frame -> Dissection)
    requires SoFar(c, observed, before, after, front, dissect)
    requires RaisedBy(dissect(f), added)
    ensures var d := dissect(f);
            SoFar(Counted(c, d), observed + if d.Tcp? then [d.packet] else [], before, after + added,
                  front + [f], dissect)
  {
    TalliedNext(front, f, dissect);
    SegmentsNext(front, f, dissect);
    ReportedNext(before, after, front, f, added, dissect);
  }

  lemma ReportedNext(
    before: seq<Warning>, after: seq<Warning>, front: seq<Frame>, f: Frame, added: seq<Warning>,
    dissect: Frame -> Dissection)
    requires Reported(before, after, front, dissect)
    requires RaisedBy(dissect(f), added)
    ensures Reported(before, after + added, front + [f], dissect)
  {
    assert (front + [f])[..|front|] == front;
    if added == [] {
      assert after + added == after;
    } else {
      TallyOfNext(after, added[0]);
      assert after + added == after + [added[0]];
    }
  }

  /** The branches of the loop: one counter goes up, and the sink hears of frames that were skipped. */
  method RecordOutcome(was: Counters, dissected: Dissection, sink: WarningSink)
    returns (c: Counters, ghost added: seq<Warning>)
    requires sink.Valid()
    modifies sink
    ensures sink.Valid() && sink.captureId == old(sink.captureId)
    ensures c == Counted(was, dissected)
    ensures sink.arrivals == old(sink.arrivals) + added && RaisedBy(dissected, added)
  {
    added := [];
    c := was.(packets := was.packets + 1);
    match dissected {
      case Tcp(_) =>
        c := c.(tcp := c.tcp + 1);
      case NotIp =>
        c := c.(nonIp := c.nonIp + 1);
      case NotTcp =>
        c := c.(nonTcp := c.nonTcp + 1);
      case UnsupportedLinkType =>
        c := c.(unsupportedLink := c.unsupportedLink + 1);
      case IpFragment =>
        c := c.(nonTcp := c.nonTcp + 1);
        sink.Add(FRAGMENT_CODE, "WARNING", None, "");
        added := [sink.arrivals[|sink.arrivals| - 1]];
      case Malformed =>
        c := c.(malformed := c.malformed + 1);
        sink.Add(MALFORMED_CODE, "WARNING", None, "");
        added := [sink.arrivals[|sink.arrivals| - 1]];
    }
  }

  /** One pass of the loop: dissect, count, hand a segment to the engine. */
  method ObserveFrame(
    frames: seq<Frame>, i: nat, dissect: Frame -> Dissection, sink: WarningSink,
    was: Counters, seen: seq<Packet>, ghost before: seq<Warning>)
    returns (counters: Counters, observed: seq<Packet>)
    requires i < |frames| && sink.Valid()
    requires SoFar(was, seen, before, sink.arrivals, frames[..i], dissect)
    modifies sink
    ensures sink.Valid() && sink.captureId == old(sink.captureId)
    ensures SoFar(counters, observed, before, sink.arrivals, frames[..i + 1], dissect)
  {
    var dissected := dissect(frames[i]);
    observed := seen;
    if dissected.Tcp? {
      observed := observed + [dissected.packet];
    }
    ghost var added;
    counters, added := RecordOutcome(was, dissected, sink);
    SoFarNext(was, seen, before, old(sink.arrivals), frames[..i], frames[i], added, dissect);
    assert frames[..i + 1] == frames[..i] + [frames[i]];
  }

  /** The counters, the observed segments, the time span and the sink after the whole capture. */
  method ClassifyFrames(frames: seq<Frame>, dissect: Frame -> Dissection, sink: WarningSink)
    returns (counters: Counters, observed: seq<Packet>, first: Option<int>, last: Option<int>)
    requires sink.Valid()
    modifies sink
    ensures sink.Valid() && sink.captureId == old(sink.captureId)
    ensures counters == Tallied(frames, dissect)
    ensures observed == Segments(frames, dissect)
    ensures first == FirstTimestamp(frames) && last == LastTimestamp(frames)
    ensures Reported(old(sink.arrivals), sink.arrivals, frames, dissect)
  {
    counters := Counters(0, 0, 0, 0, 0, 0);
    observed, first, last := [], None, None;
    ghost var before := sink.arrivals;
    var i := 0;
    while i < |frames|
      invariant 0 <= i <= |frames|
      invariant sink.Valid() && sink.captureId == old(sink.captureId)
      invariant first == FirstTimestamp(frames[..i]) && last == LastTimestamp(frames[..i])
      invariant SoFar(counters, observed, before, sink.arrivals, frames[..i], dissect)
    {
      if first == None {
        first := Some(frames[i].timestamp);
      }
      last := Some(frames[i].timestamp);
      counters, observed := ObserveFrame(frames, i, dissect, sink, counters, observed, before);
      i := i + 1;
    }
    assert frames[..|frames|] == frames;
  }

  /** Every frame of a capture is accounted for once, and every segment reaches the engine. */
  lemma {:induction false} EveryFrameCountedOnce(frames: seq<Frame>, dissect: Frame -> Dissection)
    ensures var c := Tallied(frames, dissect);
            && c.packets == c.tcp + c.nonIp + c.nonTcp + c.unsupportedLink + c.malformed
            && c.tcp == |Segments(frames, dissect)|
            && AllRaised(frames, dissect, MALFORMED_CODE) == c.malformed
            && AllRaised(frames, dissect, FRAGMENT_CODE) <= c.nonTcp
  {
    if frames != [] {
      var front, f := frames[..|frames| - 1], frames[|frames| - 1];
      EveryFrameCountedOnce(front, dissect);
      TalliedNext(front, f, dissect);
      assert frames == front + [f];
    }
  }

  // ---- a capture of encoded frames -----------------------------------------------

  /**
   * What was on the wire when a frame was captured: a packet with a TCP segment in it,
   * perhaps one of several fragments of it, or any other packet.
   */
  datatype Wire =
    | SegmentWire(header: LinkHeader, ip: IpHeader, tcp: TcpHeader, payload: seq<Byte>, padding: seq<Byte>)
    | OtherWire(header: LinkHeader, ip: IpHeader, total: Word, body: seq<Byte>)

  ghost predicate Captures(f: Frame, w: Wire) {
    && Supported(w.header) && LeavesIpv4(w.header) && f.link == TypeOf(w.header)
    && match w
       case SegmentWire(h, ip, tcp, payload, padding) =>
         ValidPacket(ip, tcp, payload) && f.data == FrameBytes(h, ip, tcp, payload, padding)
       case OtherWire(h, ip, total, body) =>
         && ValidIp(ip) && (Fragmented(ip) || ip.protocol != IPPROTO_TCP)
         && f.data == LinkBytes(h) + IpBytes(ip, total, body)
  }

  /** The packet is a fragment, or carries no TCP, or hands one segment on. */
  predicate IsFragment(w: Wire) { Fragmented(w.ip) }

  predicate IsOther(w: Wire) { !Fragmented(w.ip) && w.ip.protocol != IPPROTO_TCP }

  predicate IsSegment(w: Wire) { w.SegmentWire? && !Fragmented(w.ip) && w.ip.protocol == IPPROTO_TCP }

  function Sent(w: Wire): Packet
    requires w.SegmentWire?
  {
    Expected(w.ip, w.tcp, w.payload, |w.payload|)
  }

  function WireVerdict(w: Wire): Dissection {
    if IsFragment(w) then IpFragment else if IsSegment(w) then Tcp(Sent(w)) else NotTcp
  }

  lemma OneFrameDissects(f: Frame, w: Wire, ipv6: seq<Byte> -> Dissection)
    requires Captures(f, w)
    ensures Dissector(ipv6)(f) == WireVerdict(w)
  {
    hide DissectFrame;
    match w
    case SegmentWire(h, ip, tcp, payload, padding) => DissectInvertsEncode(h, ip, tcp, payload, padding, ipv6);
    case OtherWire(h, ip, total, body) => OtherFramesDissect(h, ip, total, body, ipv6);
  }

  /** The segments that were sent whole, in order. */
  function SegmentsSent(wires: seq<Wire>): seq<Packet> {
    if wires == [] then []
    else
      var last := wires[|wires| - 1];
      SegmentsSent(wires[..|wires| - 1]) + if IsSegment(last) then [Sent(last)] else []
  }

  function HowMany(wires: seq<Wire>, p: Wire -> bool): nat {
    if wires == [] then 0
    else HowMany(wires[..|wires| - 1], p) + if p(wires[|wires| - 1]) then 1 else 0
  }

  /** What the loop should make of these packets. */
  ghost predicate ClassifiedAs(frames: seq<Frame>, wires: seq<Wire>, dissect: Frame -> Dissection) {
    && Segments(frames, dissect) == SegmentsSent(wires)
    && Tallied(frames, dissect) == Counters(
         |wires|, HowMany(wires, IsSegment), 0, HowMany(wires, IsFragment) + HowMany(wires, IsOther), 0, 0)
    && AllRaised(frames, dissect, FRAGMENT_CODE) == HowMany(wires, IsFragment)
    && AllRaised(frames, dissect, MALFORMED_CODE) == 0
  }

  lemma ClassifiedNext(
    frames: seq<Frame>, wires: seq<Wire>, f: Frame, w: Wire, dissect: Frame -> Dissection)
    requires ClassifiedAs(frames, wires, dissect) && dissect(f) == WireVerdict(w)
    requires w.SegmentWire? || Fragmented(w.ip) || w.ip.protocol != IPPROTO_TCP
    ensures ClassifiedAs(frames + [f], wires + [w], dissect)
  {
    TalliedNext(frames, f, dissect);
    SegmentsNext(frames, f, dissect);
    assert (frames + [f])[..|frames|] == frames && (wires + [w])[..|wires|] == wires;
  }

  /**
   * A capture of whole encoded frames, fragments and other protocols among them: the engine
   * gets exactly the segments that were sent whole, in order; each fragment raises one
   * warning; fragments and other protocols are counted as not TCP; nothing else is.
   */
  lemma {:induction false} WholeFramesAreClassified(
    frames: seq<Frame>, wires: seq<Wire>, ipv6: seq<Byte> -> Dissection)
    requires |frames| == |wires|
    requires forall i :: 0 <= i < |frames| ==> Captures(frames[i], wires[i])
    ensures ClassifiedAs(frames, wires, Dissector(ipv6))
  {
    hide Captures, WireVerdict, Dissector;
    if frames == [] {
      NothingClassified(Dissector(ipv6));
    } else {
      var n := |frames| - 1;
      WholeFramesAreClassified(frames[..n], wires[..n], ipv6);
      OneFrameDissects(frames[n], wires[n], ipv6);
      CapturedIsOneOfThree(frames[n], wires[n]);
      ClassifiedNext(frames[..n], wires[..n], frames[n], wires[n], Dissector(ipv6));
      assert frames == frames[..n] + [frames[n]] && wires == wires[..n] + [wires[n]];
    }
  }

  lemma NothingClassified(dissect: Frame -> Dissection)
    ensures ClassifiedAs([], [], dissect)
  {
  }

  lemma CapturedIsOneOfThree(f: Frame, w: Wire)
    requires Captures(f, w)
    ensures w.SegmentWire? || Fragmented(w.ip) || w.ip.protocol != IPPROTO_TCP
  {
  }
}
