/**
 * From a captured frame to a TCP segment (ingestion/dissect.py), and an encoder
 * for such frames (section 3.1 of RFC 791, section 3.1 of RFC 9293).
 */
module Dissect {
  import opened Assessment
  import opened Bytes

  const ETHERTYPE_IPV4: Word := 0x0800
  const ETHERTYPE_IPV6: Word := 0x86DD
  const VLAN_ETHERTYPES: set<Word> := {0x8100, 0x88A8, 0x9100, 0x9200}
  const MAX_VLAN_TAGS: nat := 3
  const IPPROTO_TCP: Byte := 6

  datatype LinkType = Ethernet | RawIp | Null | Loop | LinuxSll | LinuxSll2 | Unsupported

  datatype Packet = Packet(
    source: seq<Byte>, destination: seq<Byte>,
    sourcePort: Word, destinationPort: Word,
    sequence: DWord, acknowledgement: DWord,
    flags: nat, window: Word,
    payload: seq<Byte>, truncated: bool, declared: nat)

  datatype Dissection =
    | Tcp(packet: Packet)
    | NotIp
    | NotTcp
    | Malformed
    | IpFragment
    | UnsupportedLinkType

  // ---- the link layer --------------------------------------------------------

  /** Past an EtherType: what the VLAN tags that may follow lead to. */
  function Walk(ethertype: Word, rest: seq<Byte>, tags: nat): Option<(Word, seq<Byte>)>
    decreases |rest|
  {
    if ethertype in VLAN_ETHERTYPES && tags < MAX_VLAN_TAGS then
      if |rest| < 4 then None else Walk(WordAt(rest, 2), rest[4..], tags + 1)
    else Some((ethertype, rest))
  }

  /** The EtherType, or none when the IP version is to decide, and the bytes it labels. */
  function Stripped(link: LinkType, data: seq<Byte>): Option<(Option<Word>, seq<Byte>)> {
    match link
    case Ethernet =>
      if |data| < 14 then None
      else (
        match Walk(WordAt(data, 12), data[14..], 0)
        case None => None
        case Some(found) => Some((Some(found.0), found.1))
      )
    case RawIp => Some((None, data))
    case Null => if |data| < 4 then None else Some((None, data[4..]))
    case Loop => if |data| < 4 then None else Some((None, data[4..]))
    case LinuxSll => if |data| < 16 then None else Some((Some(WordAt(data, 14)), data[16..]))
    case LinuxSll2 => if |data| < 20 then None else Some((Some(WordAt(data, 0)), data[20..]))
    case Unsupported => None
  }

  method StripLinkLayer(link: LinkType, data: seq<Byte>) returns (r: Option<(Option<Word>, seq<Byte>)>)
    ensures r == Stripped(link, data)
  {
    match link
    case Ethernet =>
      if |data| < 14 { return None; }
      var offset := 12;
      var ethertype := WordAt(data, offset);
      offset := offset + 2;
      var tags := 0;
      while ethertype in VLAN_ETHERTYPES && tags < MAX_VLAN_TAGS
        invariant 14 <= offset <= |data|
        invariant Walk(ethertype, data[offset..], tags) == Walk(WordAt(data, 12), data[14..], 0)
        decreases MAX_VLAN_TAGS - tags
      {
        if |data| < offset + 4 { return None; }
        assert data[offset..][4..] == data[offset + 4..];
        ethertype := WordAt(data, offset + 2);
        offset := offset + 4;
        tags := tags + 1;
      }
      return Some((Some(ethertype), data[offset..]));
    case RawIp =>
      return Some((None, data));
    case Null =>
      if |data| < 4 { return None; }
      return Some((None, data[4..]));
    case Loop =>
      if |data| < 4 { return None; }
      return Some((None, data[4..]));
    case LinuxSll =>
      if |data| < 16 { return None; }
      return Some((Some(WordAt(data, 14)), data[16..]));
    case LinuxSll2 =>
      if |data| < 20 { return None; }
      return Some((Some(WordAt(data, 0)), data[20..]));
    case Unsupported =>
      return None;
  }

  // ---- dissection -----------------------------------------------------------------

  /** The TCP bytes inside an IPv4 packet: what follows the header, up to the total length. */
  function Segment(ip: seq<Byte>, headerLength: nat): seq<Byte>
    requires 20 <= |ip|
  {
    var total := WordAt(ip, 2);
    if total < headerLength then Drop(ip, headerLength)
    else Take(Drop(ip, headerLength), total - headerLength)
  }

  /** The nine control bits: the low bit of the offset byte and the byte after it. */
  function ControlBits(offset: int, flags: int): int { offset % 2 * 256 + flags }

  function DissectTcp(ip: seq<Byte>, headerLength: nat, segment: seq<Byte>): Dissection
    requires 20 <= |ip|
  {
    if |segment| < 20 then Malformed
    else
      var tcpHeader := segment[12] / 16 * 4;
      var declared := WordAt(ip, 2) - headerLength - tcpHeader;
      if tcpHeader < 20 || declared < 0 then Malformed
      else
        var available := Take(Drop(segment, tcpHeader), declared);
        Tcp(Packet(
              ip[12..16], ip[16..20], WordAt(segment, 0), WordAt(segment, 2),
              DWordAt(segment, 4), DWordAt(segment, 8),
              ControlBits(segment[12], segment[13]), WordAt(segment, 14),
              available, |available| < declared, declared))
  }

  function DissectIpv4(ip: seq<Byte>): Dissection {
    if |ip| < 20 then Malformed
    else if ip[0] / 16 != 4 then Malformed
    else
      var headerLength := ip[0] % 16 * 4;
      if headerLength < 20 || headerLength > |ip| then Malformed
      else if WordAt(ip, 6) % 0x2000 != 0 || WordAt(ip, 6) / 0x2000 % 2 == 1 then IpFragment
      else if ip[9] != IPPROTO_TCP then NotTcp
      else DissectTcp(ip, headerLength, Segment(ip, headerLength))
  }

  /** `dissect`; the IPv6 branch is a parameter. */
  function DissectFrame(link: LinkType, data: seq<Byte>, ipv6: seq<Byte> -> Dissection): Dissection {
    if link == Unsupported then UnsupportedLinkType
    else
      match Stripped(link, data)
      case None => Malformed
      case Some((ethertype, ip)) =>
        if ip == [] then Malformed
        else
          match ethertype
          case None =>
            if ip[0] / 16 == 4 then DissectIpv4(ip)
            else if ip[0] / 16 == 6 then ipv6(ip)
            else NotIp
          case Some(e) =>
            if e == ETHERTYPE_IPV4 then DissectIpv4(ip)
            else if e == ETHERTYPE_IPV6 then ipv6(ip)
            else NotIp
  }

  // ---- the encoder ------------------------------------------------------------------

  /** One VLAN tag: its protocol identifier and its control word. */
  datatype Tag = Tag(tpid: Word, control: Word)

  /** `inner` is the EtherType of what the frame carries. */
  datatype LinkHeader =
    | EthernetHeader(addresses: seq<Byte>, tags: seq<Tag>, inner: Word)
    | NoHeader
    | NullHeader(family: seq<Byte>)
    | LoopHeader(family: seq<Byte>)
    | SllHeader(preamble: seq<Byte>, inner: Word)
    | Sll2Header(inner: Word, postamble: seq<Byte>)

  predicate ValidTags(tags: seq<Tag>) { forall i :: 0 <= i < |tags| ==> tags[i].tpid in VLAN_ETHERTYPES }

  predicate ValidLink(h: LinkHeader) {
    match h
    case EthernetHeader(addresses, tags, inner) =>
      |addresses| == 12 && ValidTags(tags) && inner !in VLAN_ETHERTYPES
    case NoHeader => true
    case NullHeader(family) => |family| == 4
    case LoopHeader(family) => |family| == 4
    case SllHeader(preamble, _) => |preamble| == 14
    case Sll2Header(_, postamble) => |postamble| == 18
  }

  function TypeOf(h: LinkHeader): LinkType {
    match h
    case EthernetHeader(_, _, _) => Ethernet
    case NoHeader => RawIp
    case NullHeader(_) => Null
    case LoopHeader(_) => Loop
    case SllHeader(_, _) => LinuxSll
    case Sll2Header(_, _) => LinuxSll2
  }

  function Pair(w: Word): seq<Byte> { [Hi(w), Lo(w)] }

  function FirstType(tags: seq<Tag>, inner: Word): Word { if tags == [] then inner else tags[0].tpid }

  /** Each tag's control word, then the type of whatever comes next. */
  function TagBytes(tags: seq<Tag>, inner: Word): (b: seq<Byte>)
    ensures |b| == 4 * |tags|
  {
    if tags == [] then []
    else Pair(tags[0].control) + Pair(FirstType(tags[1..], inner)) + TagBytes(tags[1..], inner)
  }

  function LinkBytes(h: LinkHeader): seq<Byte> {
    match h
    case EthernetHeader(addresses, tags, inner) => addresses + Pair(FirstType(tags, inner)) + TagBytes(tags, inner)
    case NoHeader => []
    case NullHeader(family) => family
    case LoopHeader(family) => family
    case SllHeader(preamble, inner) => preamble + Pair(inner)
    case Sll2Header(inner, postamble) => Pair(inner) + postamble
  }

  datatype Address = Address(a: Byte, b: Byte, c: Byte, d: Byte)

  /** `fragmentOffset` counts eight-byte blocks in thirteen bits. */
  datatype IpHeader = IpHeader(
    service: Byte, identification: Word, reserved: bool, dontFragment: bool, moreFragments: bool,
    fragmentOffset: nat, timeToLive: Byte, protocol: Byte,
    checksum: Word, source: Address, destination: Address, options: seq<Byte>)

  /** `flags` is the nine control bits; `reserved` the three bits before them. */
  datatype TcpHeader = TcpHeader(
    sourcePort: Word, destinationPort: Word, sequence: DWord, acknowledgement: DWord,
    reserved: nat, flags: nat, window: Word, checksum: Word, urgent: Word, options: seq<Byte>)

  /** Options fill whole words and leave the header length field room. */
  predicate ValidOptions(options: seq<Byte>) { |options| <= 40 && |options| % 4 == 0 }

  function IpLength(ip: IpHeader): nat { 20 + |ip.options| }

  function TcpLength(tcp: TcpHeader): nat { 20 + |tcp.options| }

  predicate ValidIp(ip: IpHeader) { ValidOptions(ip.options) && ip.fragmentOffset < 0x2000 }

  predicate ValidTcp(tcp: TcpHeader) { ValidOptions(tcp.options) && tcp.reserved < 8 && tcp.flags < 512 }

  predicate ValidPacket(ip: IpHeader, tcp: TcpHeader, payload: seq<Byte>) {
    ValidIp(ip) && ValidTcp(tcp) && IpLength(ip) + TcpLength(tcp) + |payload| < 0x1_0000
  }

  /** A part of a larger packet: more follows, or it does not start at the beginning. */
  predicate Fragmented(ip: IpHeader) { ip.moreFragments || ip.fragmentOffset != 0 }

  /** The three flags and the offset. */
  function FragmentField(ip: IpHeader): Word
    requires ValidIp(ip)
  {
    (if ip.reserved then 0x8000 else 0) + (if ip.dontFragment then 0x4000 else 0)
    + (if ip.moreFragments then 0x2000 else 0) + ip.fragmentOffset
  }

  function IpHeaderBytes(ip: IpHeader, total: Word): (b: seq<Byte>)
    requires ValidIp(ip)
    ensures |b| == IpLength(ip)
  {
    [4 * 16 + IpLength(ip) / 4, ip.service, Hi(total), Lo(total),
     Hi(ip.identification), Lo(ip.identification), Hi(FragmentField(ip)), Lo(FragmentField(ip)),
     ip.timeToLive, ip.protocol, Hi(ip.checksum), Lo(ip.checksum),
     ip.source.a, ip.source.b, ip.source.c, ip.source.d,
     ip.destination.a, ip.destination.b, ip.destination.c, ip.destination.d] + ip.options
  }

  function TcpHeaderBytes(tcp: TcpHeader): (b: seq<Byte>)
    requires ValidTcp(tcp)
    ensures |b| == TcpLength(tcp)
  {
    [Hi(tcp.sourcePort), Lo(tcp.sourcePort), Hi(tcp.destinationPort), Lo(tcp.destinationPort),
     Hi(Upper(tcp.sequence)), Lo(Upper(tcp.sequence)), Hi(Lower(tcp.sequence)), Lo(Lower(tcp.sequence)),
     Hi(Upper(tcp.acknowledgement)), Lo(Upper(tcp.acknowledgement)),
     Hi(Lower(tcp.acknowledgement)), Lo(Lower(tcp.acknowledgement)),
     TcpLength(tcp) / 4 * 16 + tcp.reserved * 2 + tcp.flags / 256, tcp.flags % 256,
     Hi(tcp.window), Lo(tcp.window), Hi(tcp.checksum), Lo(tcp.checksum),
     Hi(tcp.urgent), Lo(tcp.urgent)] + tcp.options
  }

  /** An IPv4 packet that declares `total` bytes. */
  function IpBytes(ip: IpHeader, total: Word, body: seq<Byte>): (b: seq<Byte>)
    requires ValidIp(ip)
    ensures |b| == IpLength(ip) + |body|
  {
    IpHeaderBytes(ip, total) + body
  }

  function SegmentBytes(tcp: TcpHeader, payload: seq<Byte>): (b: seq<Byte>)
    requires ValidTcp(tcp)
    ensures |b| == TcpLength(tcp) + |payload|
  {
    TcpHeaderBytes(tcp) + payload
  }

  function PacketBytes(ip: IpHeader, tcp: TcpHeader, payload: seq<Byte>): (b: seq<Byte>)
    requires ValidPacket(ip, tcp, payload)
    ensures |b| == IpLength(ip) + TcpLength(tcp) + |payload|
  {
    IpBytes(ip, IpLength(ip) + TcpLength(tcp) + |payload|, SegmentBytes(tcp, payload))
  }

  /** A frame as it was on the wire, with whatever padding followed the packet. */
  function FrameBytes(
    h: LinkHeader, ip: IpHeader, tcp: TcpHeader, payload: seq<Byte>, padding: seq<Byte>): seq<Byte>
    requires ValidPacket(ip, tcp, payload)
  {
    LinkBytes(h) + (PacketBytes(ip, tcp, payload) + padding)
  }

  function Octets(a: Address): seq<Byte> { [a.a, a.b, a.c, a.d] }

  /** The report of a packet whose headers are these and whose payload should have been `declared` long. */
  function Reported(ip: IpHeader, tcp: TcpHeader, payload: seq<Byte>, declared: nat): Packet {
    Packet(Octets(ip.source), Octets(ip.destination), tcp.sourcePort, tcp.destinationPort,
           tcp.sequence, tcp.acknowledgement, tcp.flags, tcp.window,
           payload, |payload| < declared, declared)
  }

  /** The packet `dissect` should report when `present` bytes of payload were captured. */
  function Expected(ip: IpHeader, tcp: TcpHeader, payload: seq<Byte>, present: nat): Packet {
    Reported(ip, tcp, Take(payload, present), |payload|)
  }

  // ---- the link layer inverts its encoding ------------------------------------------

  lemma PairRead(w: Word, data: seq<Byte>, i: nat)
    requires i + 2 <= |data| && data[i] == Hi(w) && data[i + 1] == Lo(w)
    ensures WordAt(data, i) == w
  {
  }

  lemma {:induction false} WalkInverts(tags: seq<Tag>, inner: Word, rest: seq<Byte>, n: nat)
    requires ValidTags(tags) && inner !in VLAN_ETHERTYPES && n + |tags| <= MAX_VLAN_TAGS
    ensures Walk(FirstType(tags, inner), TagBytes(tags, inner) + rest, n) == Some((inner, rest))
  {
    var bytes := TagBytes(tags, inner) + rest;
    if tags == [] {
      assert bytes == rest;
    } else {
      assert tags[0].tpid in VLAN_ETHERTYPES;
      PairRead(FirstType(tags[1..], inner), bytes, 2);
      assert bytes[4..] == TagBytes(tags[1..], inner) + rest;
      assert ValidTags(tags[1..]);
      WalkInverts(tags[1..], inner, rest, n + 1);
    }
  }

  /** Past the third tag the walk stops on a tag, whatever it encloses. */
  lemma {:induction false} WalkStops(tags: seq<Tag>, inner: Word, rest: seq<Byte>, n: nat)
    requires ValidTags(tags) && n <= MAX_VLAN_TAGS < n + |tags|
    ensures Walk(FirstType(tags, inner), TagBytes(tags, inner) + rest, n).Some?
    ensures Walk(FirstType(tags, inner), TagBytes(tags, inner) + rest, n).value.0 in VLAN_ETHERTYPES
    ensures Walk(FirstType(tags, inner), TagBytes(tags, inner) + rest, n).value.1 != []
  {
    var bytes := TagBytes(tags, inner) + rest;
    assert tags[0].tpid in VLAN_ETHERTYPES;
    if n < MAX_VLAN_TAGS {
      PairRead(FirstType(tags[1..], inner), bytes, 2);
      assert bytes[4..] == TagBytes(tags[1..], inner) + rest;
      assert ValidTags(tags[1..]);
      WalkStops(tags[1..], inner, rest, n + 1);
    }
  }

  lemma {:induction false} WalkOfCut(tags: seq<Tag>, inner: Word, n: nat, k: nat)
    requires ValidTags(tags) && n + |tags| <= MAX_VLAN_TAGS && k < 4 * |tags|
    ensures Walk(FirstType(tags, inner), TagBytes(tags, inner)[..k], n) == None
  {
    assert tags[0].tpid in VLAN_ETHERTYPES;
    if k >= 4 {
      var bytes := TagBytes(tags, inner)[..k];
      PairRead(FirstType(tags[1..], inner), bytes, 2);
      assert bytes[4..] == TagBytes(tags[1..], inner)[..k - 4];
      assert ValidTags(tags[1..]);
      WalkOfCut(tags[1..], inner, n + 1, k - 4);
    }
  }

  function LabelOf(h: LinkHeader): Option<Word> {
    if h.NoHeader? || h.NullHeader? || h.LoopHeader? then None else Some(h.inner)
  }

  /** The link header labels IPv4, or leaves the choice to the version nibble. */
  predicate LeavesIpv4(h: LinkHeader) { LabelOf(h) == None || LabelOf(h) == Some(ETHERTYPE_IPV4) }

  predicate Supported(h: LinkHeader) { ValidLink(h) && (h.EthernetHeader? ==> |h.tags| <= MAX_VLAN_TAGS) }

  lemma EthernetSplits(h: LinkHeader, rest: seq<Byte>)
    requires ValidLink(h) && h.EthernetHeader?
    ensures WordAt(LinkBytes(h) + rest, 12) == FirstType(h.tags, h.inner)
    ensures (LinkBytes(h) + rest)[14..] == TagBytes(h.tags, h.inner) + rest
  {
    PairRead(FirstType(h.tags, h.inner), LinkBytes(h) + rest, 12);
  }

  lemma StripInverts(h: LinkHeader, rest: seq<Byte>)
    requires Supported(h)
    ensures Stripped(TypeOf(h), LinkBytes(h) + rest) == Some((LabelOf(h), rest))
  {
    var data := LinkBytes(h) + rest;
    match h
    case EthernetHeader(addresses, tags, inner) =>
      EthernetSplits(h, rest);
      WalkInverts(tags, inner, rest, 0);
    case NoHeader =>
      assert data == rest;
    case NullHeader(family) =>
      assert data[4..] == rest;
    case LoopHeader(family) =>
      assert data[4..] == rest;
    case SllHeader(preamble, inner) =>
      PairRead(inner, data, 14);
      assert data[16..] == rest;
    case Sll2Header(inner, postamble) =>
      PairRead(inner, data, 0);
      assert data[20..] == rest;
  }

  lemma StripOfCut(h: LinkHeader, k: nat)
    requires Supported(h) && k < |LinkBytes(h)|
    ensures Stripped(TypeOf(h), LinkBytes(h)[..k]) == None
  {
    if h.EthernetHeader? && k >= 14 {
      var data := LinkBytes(h)[..k];
      PairRead(FirstType(h.tags, h.inner), data, 12);
      assert data[14..] == TagBytes(h.tags, h.inner)[..k - 14];
      WalkOfCut(h.tags, h.inner, 0, k - 14);
    }
  }

  /** A fourth tag is not walked: the frame is reported as not IP. */
  lemma FourTagsAreNotIp(h: LinkHeader, rest: seq<Byte>, ipv6: seq<Byte> -> Dissection)
    requires ValidLink(h) && h.EthernetHeader? && |h.tags| > MAX_VLAN_TAGS
    ensures DissectFrame(Ethernet, LinkBytes(h) + rest, ipv6) == NotIp
  {
    EthernetSplits(h, rest);
    WalkStops(h.tags, h.inner, rest, 0);
  }

  // ---- the network and transport layers ------------------------------------------------

  /** The data starts with an IPv4 header saying what `ip` says. */
  ghost predicate IsHeaderOf(data: seq<Byte>, ip: IpHeader, total: Word) {
    && 20 <= |data|
    && data[0] / 16 == 4 && data[0] % 16 * 4 == IpLength(ip)
    && WordAt(data, 2) == total
    && WordAt(data, 6) % 0x2000 == ip.fragmentOffset && (WordAt(data, 6) / 0x2000 % 2 == 1 <==> ip.moreFragments)
    && data[9] == ip.protocol
    && data[12..16] == Octets(ip.source) && data[16..20] == Octets(ip.destination)
  }

  lemma VersionAndLength(words: nat)
    requires 5 <= words <= 15
    ensures (4 * 16 + words) / 16 == 4 && (4 * 16 + words) % 16 == words
  {
  }

  lemma FragmentWord(ip: IpHeader)
    requires ValidIp(ip)
    ensures FragmentField(ip) % 0x2000 == ip.fragmentOffset
    ensures FragmentField(ip) / 0x2000 % 2 == 1 <==> ip.moreFragments
  {
  }

  /** The first twenty bytes are those of the header. */
  ghost predicate StartsWithIp(data: seq<Byte>, ip: IpHeader, total: Word) {
    ValidIp(ip) && 20 <= |data| && data[..20] == IpHeaderBytes(ip, total)[..20]
  }

  lemma IpByte(data: seq<Byte>, ip: IpHeader, total: Word, i: nat)
    requires StartsWithIp(data, ip, total) && i < 20
    ensures data[i] == IpHeaderBytes(ip, total)[i]
  {
    assert data[i] == data[..20][i];
  }

  lemma IpVersion(data: seq<Byte>, ip: IpHeader, total: Word)
    requires StartsWithIp(data, ip, total)
    ensures data[0] / 16 == 4 && data[0] % 16 * 4 == IpLength(ip) && data[9] == ip.protocol
  {
    IpByte(data, ip, total, 0);
    IpByte(data, ip, total, 9);
    VersionAndLength(IpLength(ip) / 4);
  }

  lemma IpWords(data: seq<Byte>, ip: IpHeader, total: Word)
    requires StartsWithIp(data, ip, total)
    ensures WordAt(data, 2) == total
    ensures WordAt(data, 6) == FragmentField(ip)
  {
    IpByte(data, ip, total, 2);
    IpByte(data, ip, total, 3);
    IpByte(data, ip, total, 6);
    IpByte(data, ip, total, 7);
    PairRead(total, data, 2);
    PairRead(FragmentField(ip), data, 6);
  }

  lemma IpAddresses(data: seq<Byte>, ip: IpHeader, total: Word)
    requires StartsWithIp(data, ip, total)
    ensures data[12..16] == Octets(ip.source) && data[16..20] == Octets(ip.destination)
  {
    assert data[12..16] == data[..20][12..16] == IpHeaderBytes(ip, total)[12..16];
    assert data[16..20] == data[..20][16..20] == IpHeaderBytes(ip, total)[16..20];
  }

  lemma IpHeaderFields(ip: IpHeader, total: Word, data: seq<Byte>)
    requires StartsWithIp(data, ip, total)
    ensures IsHeaderOf(data, ip, total)
  {
    IpVersion(data, ip, total);
    IpWords(data, ip, total);
    FragmentWord(ip);
    IpAddresses(data, ip, total);
  }

  lemma Sixteenths(words: nat, r: nat)
    requires r < 16
    ensures (words * 16 + r) / 16 == words
  {
  }

  lemma Halves(n: nat, r: nat)
    ensures (n * 2 + r) % 2 == r % 2
  {
  }

  lemma OffsetByte(words: nat, reserved: nat, flags: nat)
    requires reserved < 8 && flags < 512
    ensures (words * 16 + reserved * 2 + flags / 256) / 16 == words
    ensures ControlBits(words * 16 + reserved * 2 + flags / 256, flags % 256) == flags
  {
    var high := flags / 256;
    assert high < 2 && flags == high * 256 + flags % 256;
    Sixteenths(words, reserved * 2 + high);
    Halves(words * 8 + reserved, high);
  }

  lemma DWordRead(d: DWord, data: seq<Byte>, i: nat)
    requires i + 4 <= |data|
    requires data[i] == Hi(Upper(d)) && data[i + 1] == Lo(Upper(d))
    requires data[i + 2] == Hi(Lower(d)) && data[i + 3] == Lo(Lower(d))
    ensures DWordAt(data, i) == d
  {
    PairRead(Upper(d), data, i);
    PairRead(Lower(d), data, i + 2);
  }

  ghost predicate StartsWithHeader(data: seq<Byte>, tcp: TcpHeader) {
    && ValidTcp(tcp) && 20 <= |data|
    && data[..20] == TcpHeaderBytes(tcp)[..20]
  }

  lemma TcpPorts(tcp: TcpHeader, data: seq<Byte>)
    requires StartsWithHeader(data, tcp)
    ensures WordAt(data, 0) == tcp.sourcePort && WordAt(data, 2) == tcp.destinationPort
    ensures WordAt(data, 14) == tcp.window
  {
    var b := TcpHeaderBytes(tcp);
    assert forall i :: 0 <= i < 20 ==> data[i] == data[..20][i] == b[i];
    PairRead(tcp.sourcePort, data, 0);
    PairRead(tcp.destinationPort, data, 2);
    PairRead(tcp.window, data, 14);
  }

  lemma TcpNumbers(tcp: TcpHeader, data: seq<Byte>)
    requires StartsWithHeader(data, tcp)
    ensures DWordAt(data, 4) == tcp.sequence && DWordAt(data, 8) == tcp.acknowledgement
  {
    var b := TcpHeaderBytes(tcp);
    assert forall i :: 0 <= i < 20 ==> data[i] == data[..20][i] == b[i];
    DWordRead(tcp.sequence, data, 4);
    DWordRead(tcp.acknowledgement, data, 8);
  }

  lemma TcpControl(tcp: TcpHeader, data: seq<Byte>)
    requires StartsWithHeader(data, tcp)
    ensures data[12] / 16 * 4 == TcpLength(tcp)
    ensures ControlBits(data[12], data[13]) == tcp.flags
  {
    var b := TcpHeaderBytes(tcp);
    assert data[12] == data[..20][12] == b[12] && data[13] == data[..20][13] == b[13];
    OffsetByte(TcpLength(tcp) / 4, tcp.reserved, tcp.flags);
  }

  /** The fixed part of the IPv4 header survives any cut that keeps twenty bytes. */
  lemma CutKeepsIpHeader(ip: IpHeader, total: Word, body: seq<Byte>, k: nat)
    requires ValidIp(ip) && 20 <= k <= |IpBytes(ip, total, body)|
    ensures IsHeaderOf(IpBytes(ip, total, body)[..k], ip, total)
  {
    var data := IpBytes(ip, total, body)[..k];
    assert data[..20] == IpHeaderBytes(ip, total)[..20];
    IpHeaderFields(ip, total, data);
  }

  /** A captured prefix of what IP carries, cut back to the length IP declared. */
  lemma SegmentOfCut(ip: IpHeader, total: Word, body: seq<Byte>, k: nat)
    requires ValidIp(ip) && IpLength(ip) <= k <= |IpBytes(ip, total, body)| && IpLength(ip) <= total
    ensures Segment(IpBytes(ip, total, body)[..k], IpLength(ip)) ==
            Take(Take(body, k - IpLength(ip)), total - IpLength(ip))
  {
    var data := IpBytes(ip, total, body)[..k];
    CutKeepsIpHeader(ip, total, body, k);
    assert Drop(data, IpLength(ip)) == body[..k - IpLength(ip)];
  }

  // ---- what an encoded packet should dissect to ------------------------------------------

  /** What is left of `n` bytes past the first `skip`. */
  function Beyond(n: nat, skip: nat): nat { if n < skip then 0 else n - skip }

  /**
   * The first `n` bytes of a segment, `rest` being whatever follows its header, inside a
   * packet that declares `total` bytes.
   */
  function TcpVerdict(ip: IpHeader, tcp: TcpHeader, total: nat, rest: seq<Byte>, n: nat): Dissection {
    if n < 20 || total < IpLength(ip) + TcpLength(tcp) then Malformed
    else
      var declared := total - IpLength(ip) - TcpLength(tcp);
      Tcp(Reported(ip, tcp, Take(Take(rest, Beyond(n, TcpLength(tcp))), declared), declared))
  }

  /** The first `k` bytes of a packet that, unfragmented and carrying TCP, comes to `inside`. */
  function IpVerdict(ip: IpHeader, k: nat, inside: Dissection): Dissection {
    if k < IpLength(ip) then Malformed
    else if Fragmented(ip) then IpFragment
    else if ip.protocol != IPPROTO_TCP then NotTcp
    else inside
  }

  /** The payload bytes a capture of the first `k` bytes of the packet still holds. */
  function Present(ip: IpHeader, tcp: TcpHeader, k: nat): nat { Beyond(k, IpLength(ip) + TcpLength(tcp)) }

  /** What the first `k` bytes of an encoded packet should dissect to. */
  function PacketVerdict(ip: IpHeader, tcp: TcpHeader, payload: seq<Byte>, k: nat): Dissection {
    IpVerdict(ip, k,
              if k < IpLength(ip) + 20 then Malformed
              else Tcp(Expected(ip, tcp, payload, Present(ip, tcp, k))))
  }

  /** The same of an encoded frame: nothing inside the link header, its packet below it. */
  function CutVerdict(h: LinkHeader, ip: IpHeader, tcp: TcpHeader, payload: seq<Byte>, k: nat): Dissection {
    if k < |LinkBytes(h)| then Malformed else PacketVerdict(ip, tcp, payload, k - |LinkBytes(h)|)
  }

  // ---- segments ----------------------------------------------------------------------------

  lemma AvailableOf(header: seq<Byte>, rest: seq<Byte>, n: nat, declared: nat)
    ensures Take(Drop(Take(Take(header + rest, n), |header| + declared), |header|), declared) ==
            Take(Take(rest, Beyond(n, |header|)), declared)
  {
    var captured := Take(header + rest, n);
    if n >= |header| {
      var kept := Take(rest, n - |header|);
      assert captured == header + kept;
      assert Take(header + kept, |header| + declared) == header + Take(kept, declared);
      assert Drop(header + Take(kept, declared), |header|) == Take(kept, declared);
    }
  }

  lemma SegmentFields(tcp: TcpHeader, segment: seq<Byte>)
    requires StartsWithHeader(segment, tcp)
    ensures WordAt(segment, 0) == tcp.sourcePort && WordAt(segment, 2) == tcp.destinationPort
    ensures WordAt(segment, 14) == tcp.window
    ensures DWordAt(segment, 4) == tcp.sequence && DWordAt(segment, 8) == tcp.acknowledgement
    ensures segment[12] / 16 * 4 == TcpLength(tcp) && ControlBits(segment[12], segment[13]) == tcp.flags
  {
    TcpPorts(tcp, segment);
    TcpNumbers(tcp, segment);
    TcpControl(tcp, segment);
  }

  lemma FixedPartSurvives(header: seq<Byte>, rest: seq<Byte>, n: nat, m: nat)
    requires |header| >= 20 && n >= 20 && m >= 20
    ensures var kept := Take(Take(header + rest, n), m);
            |kept| >= 20 && kept[..20] == header[..20]
  {
    var whole := header + rest;
    var first := Take(whole, n);
    var kept := Take(first, m);
    assert whole[..20] == header[..20];
    assert first[..20] == whole[..20];
    assert kept[..20] == first[..20];
  }

  /** Below a good IPv4 header, the first `n` bytes of a segment. */
  lemma SegmentDissects(ip: IpHeader, tcp: TcpHeader, total: Word, rest: seq<Byte>, data: seq<Byte>, n: nat)
    requires ValidTcp(tcp) && IsHeaderOf(data, ip, total) && IpLength(ip) + 20 <= total
    ensures DissectTcp(data, IpLength(ip), Take(Take(TcpHeaderBytes(tcp) + rest, n), total - IpLength(ip))) ==
            TcpVerdict(ip, tcp, total, rest, n)
  {
    var segment := Take(Take(TcpHeaderBytes(tcp) + rest, n), total - IpLength(ip));
    if n >= 20 {
      FixedPartSurvives(TcpHeaderBytes(tcp), rest, n, total - IpLength(ip));
      SegmentFields(tcp, segment);
      if total >= IpLength(ip) + TcpLength(tcp) {
        AvailableOf(TcpHeaderBytes(tcp), rest, n, total - IpLength(ip) - TcpLength(tcp));
      }
    }
  }

  /** A packet that declares less than a header's worth of TCP is malformed. */
  lemma ShortTotal(ip: IpHeader, tcp: TcpHeader, total: Word, rest: seq<Byte>, k: nat)
    requires ValidIp(ip) && ValidTcp(tcp) && total < IpLength(ip) + 20
    requires IpLength(ip) <= k <= |IpBytes(ip, total, TcpHeaderBytes(tcp) + rest)|
    ensures var data := IpBytes(ip, total, TcpHeaderBytes(tcp) + rest)[..k];
            DissectTcp(data, IpLength(ip), Segment(data, IpLength(ip))) == Malformed
  {
    var body := TcpHeaderBytes(tcp) + rest;
    var data := IpBytes(ip, total, body)[..k];
    CutKeepsIpHeader(ip, total, body, k);
    if total < IpLength(ip) {
      assert Drop(data, IpLength(ip)) == body[..k - IpLength(ip)];
    } else {
      SegmentOfCut(ip, total, body, k);
    }
  }

  lemma TcpOfCut(ip: IpHeader, tcp: TcpHeader, total: Word, rest: seq<Byte>, k: nat)
    requires ValidIp(ip) && ValidTcp(tcp)
    requires IpLength(ip) <= k <= |IpBytes(ip, total, TcpHeaderBytes(tcp) + rest)|
    ensures var data := IpBytes(ip, total, TcpHeaderBytes(tcp) + rest)[..k];
            DissectTcp(data, IpLength(ip), Segment(data, IpLength(ip))) ==
            TcpVerdict(ip, tcp, total, rest, k - IpLength(ip))
  {
    hide DissectTcp, Segment;
    var body := TcpHeaderBytes(tcp) + rest;
    if total < IpLength(ip) + 20 {
      ShortTotal(ip, tcp, total, rest, k);
    } else {
      CutKeepsIpHeader(ip, total, body, k);
      SegmentOfCut(ip, total, body, k);
      SegmentDissects(ip, tcp, total, rest, IpBytes(ip, total, body)[..k], k - IpLength(ip));
    }
  }

  // ---- packets -------------------------------------------------------------------------------

  /** The header's own fields decide, down to the segment. */
  lemma Ipv4Reads(ip: IpHeader, total: Word, body: seq<Byte>, k: nat)
    requires ValidIp(ip) && k <= |IpBytes(ip, total, body)|
    ensures var data := IpBytes(ip, total, body)[..k];
            DissectIpv4(data) ==
            IpVerdict(ip, k,
                      if k < 20 then Malformed else DissectTcp(data, IpLength(ip), Segment(data, IpLength(ip))))
  {
    hide DissectTcp, Segment;
    if k >= 20 { CutKeepsIpHeader(ip, total, body, k); }
  }

  /**
   * A fragment is a fragment and another protocol is another protocol, whatever the packet
   * holds and whatever length it declares, as soon as its header was captured.
   */
  lemma OtherPackets(ip: IpHeader, total: Word, body: seq<Byte>, k: nat)
    requires ValidIp(ip) && k <= |IpBytes(ip, total, body)| && (Fragmented(ip) || ip.protocol != IPPROTO_TCP)
    ensures DissectIpv4(IpBytes(ip, total, body)[..k]) ==
            if k < IpLength(ip) then Malformed else if Fragmented(ip) then IpFragment else NotTcp
  {
    hide DissectIpv4;
    Ipv4Reads(ip, total, body, k);
  }

  /**
   * The declared length decides what of the bytes that were captured is payload: none of
   * them when it does not cover both headers, and otherwise as many as it covers.
   */
  lemma DeclaredLengthDecides(ip: IpHeader, tcp: TcpHeader, total: Word, rest: seq<Byte>, k: nat)
    requires ValidIp(ip) && ValidTcp(tcp) && k <= |IpBytes(ip, total, TcpHeaderBytes(tcp) + rest)|
    ensures DissectIpv4(IpBytes(ip, total, TcpHeaderBytes(tcp) + rest)[..k]) ==
            IpVerdict(ip, k, TcpVerdict(ip, tcp, total, rest, Beyond(k, IpLength(ip))))
  {
    hide DissectIpv4, TcpVerdict;
    Ipv4Reads(ip, total, TcpHeaderBytes(tcp) + rest, k);
    if k >= IpLength(ip) { TcpOfCut(ip, tcp, total, rest, k); }
  }

  lemma PaddingIsNoPayload(payload: seq<Byte>, padding: seq<Byte>, n: nat)
    ensures Take(Take(payload + padding, n), |payload|) == Take(payload, n)
  {
  }

  lemma Ipv4OfCut(ip: IpHeader, tcp: TcpHeader, payload: seq<Byte>, padding: seq<Byte>, k: nat)
    requires ValidPacket(ip, tcp, payload) && k <= |PacketBytes(ip, tcp, payload) + padding|
    ensures DissectIpv4((PacketBytes(ip, tcp, payload) + padding)[..k]) ==
            PacketVerdict(ip, tcp, payload, k)
  {
    hide DissectIpv4;
    var total := IpLength(ip) + TcpLength(tcp) + |payload|;
    assert PacketBytes(ip, tcp, payload) + padding == IpBytes(ip, total, TcpHeaderBytes(tcp) + (payload + padding));
    DeclaredLengthDecides(ip, tcp, total, payload + padding, k);
    PaddingIsNoPayload(payload, padding, Present(ip, tcp, k));
  }

  // ---- packets that are no packets --------------------------------------------------------------

  /** Another version, a header shorter than the least or longer than the packet: malformed. */
  lemma FirstByteDecides(ip: IpHeader, total: Word, body: seq<Byte>, first: Byte)
    requires ValidIp(ip)
    requires first / 16 != 4 || first % 16 < 5 || 4 * (first % 16) > |IpBytes(ip, total, body)|
    ensures DissectIpv4(IpBytes(ip, total, body)[0 := first]) == Malformed
  {
    hide DissectTcp, Segment;
  }

  /** A data offset short of the fixed TCP header is malformed, in any packet that carries TCP. */
  lemma DataOffsetDecides(ip: IpHeader, tcp: TcpHeader, total: Word, rest: seq<Byte>, offset: Byte)
    requires ValidIp(ip) && ValidTcp(tcp) && offset / 16 < 5
    requires !Fragmented(ip) && ip.protocol == IPPROTO_TCP
    ensures DissectIpv4(IpBytes(ip, total, (TcpHeaderBytes(tcp) + rest)[12 := offset])) == Malformed
  {
    hide DissectIpv4;
    var body := (TcpHeaderBytes(tcp) + rest)[12 := offset];
    var data := IpBytes(ip, total, body);
    Ipv4Reads(ip, total, body, |data|);
    assert data[..|data|] == data;
    OffsetOfSegment(ip, total, body, offset);
  }

  lemma OffsetOfSegment(ip: IpHeader, total: Word, body: seq<Byte>, offset: Byte)
    requires ValidIp(ip) && |body| >= 20 && body[12] == offset && offset / 16 < 5
    ensures var data := IpBytes(ip, total, body);
            DissectTcp(data, IpLength(ip), Segment(data, IpLength(ip))) == Malformed
  {
    var data := IpBytes(ip, total, body);
    assert Drop(data, IpLength(ip)) == body;
  }

  // ---- frames -----------------------------------------------------------------------------------

  /**
   * What a frame's label comes to, for every link header and whatever it carries: the label
   * decides when there is one, the version nibble when there is none.
   */
  lemma LabelDecides(h: LinkHeader, rest: seq<Byte>, ipv6: seq<Byte> -> Dissection)
    requires Supported(h)
    ensures var d := DissectFrame(TypeOf(h), LinkBytes(h) + rest, ipv6);
            && (rest == [] ==> d == Malformed)
            && (rest != [] && LabelOf(h) == Some(ETHERTYPE_IPV4) ==> d == DissectIpv4(rest))
            && (rest != [] && LabelOf(h) == Some(ETHERTYPE_IPV6) ==> d == ipv6(rest))
            && (rest != [] && LabelOf(h).Some? && LabelOf(h).value !in {ETHERTYPE_IPV4, ETHERTYPE_IPV6} ==> d == NotIp)
            && (rest != [] && LabelOf(h).None? ==>
                d == if rest[0] / 16 == 4 then DissectIpv4(rest) else if rest[0] / 16 == 6 then ipv6(rest) else NotIp)
  {
    hide DissectIpv4, Stripped;
    StripInverts(h, rest);
  }

  /** A link type nobody can walk is reported as that, and IPv4 never is. */
  lemma UnsupportedExactly(link: LinkType, data: seq<Byte>, ipv6: seq<Byte> -> Dissection)
    requires forall b :: ipv6(b) != UnsupportedLinkType
    ensures DissectFrame(link, data, ipv6) == UnsupportedLinkType <==> link == Unsupported
  {
  }

  /** Below a link header that labels IPv4, or leaves it to the version nibble, IPv4 decides. */
  lemma FrameIsItsPacket(h: LinkHeader, rest: seq<Byte>, ipv6: seq<Byte> -> Dissection)
    requires Supported(h) && LeavesIpv4(h) && (rest != [] ==> rest[0] / 16 == 4)
    ensures DissectFrame(TypeOf(h), LinkBytes(h) + rest, ipv6) == DissectIpv4(rest)
  {
    hide DissectFrame;
    LabelDecides(h, rest, ipv6);
  }

  lemma FirstNibble(ip: IpHeader, total: Word, body: seq<Byte>)
    requires ValidIp(ip)
    ensures IpBytes(ip, total, body)[0] / 16 == 4
  {
    VersionAndLength(IpLength(ip) / 4);
  }

  lemma CutInsideLink(h: LinkHeader, whole: seq<Byte>, k: nat, ipv6: seq<Byte> -> Dissection)
    requires Supported(h) && k < |LinkBytes(h)|
    ensures DissectFrame(TypeOf(h), (LinkBytes(h) + whole)[..k], ipv6) == Malformed
  {
    assert (LinkBytes(h) + whole)[..k] == LinkBytes(h)[..k];
    StripOfCut(h, k);
  }

  lemma CutBelowLink(h: LinkHeader, whole: seq<Byte>, k: nat, ipv6: seq<Byte> -> Dissection)
    requires Supported(h) && LeavesIpv4(h) && |LinkBytes(h)| <= k <= |LinkBytes(h) + whole|
    requires whole != [] ==> whole[0] / 16 == 4
    ensures DissectFrame(TypeOf(h), (LinkBytes(h) + whole)[..k], ipv6) == DissectIpv4(whole[..k - |LinkBytes(h)|])
  {
    var rest := whole[..k - |LinkBytes(h)|];
    assert (LinkBytes(h) + whole)[..k] == LinkBytes(h) + rest;
    FrameIsItsPacket(h, rest, ipv6);
  }

  /** A cut frame dissects to `d` when its cut packet does, and not at all inside the link header. */
  lemma CutFrame(h: LinkHeader, whole: seq<Byte>, k: nat, ipv6: seq<Byte> -> Dissection, d: Dissection)
    requires Supported(h) && LeavesIpv4(h) && k <= |LinkBytes(h) + whole|
    requires whole != [] ==> whole[0] / 16 == 4
    requires k < |LinkBytes(h)| ==> d == Malformed
    requires k >= |LinkBytes(h)| ==> d == DissectIpv4(whole[..k - |LinkBytes(h)|])
    ensures DissectFrame(TypeOf(h), (LinkBytes(h) + whole)[..k], ipv6) == d
  {
    if k < |LinkBytes(h)| {
      CutInsideLink(h, whole, k, ipv6);
    } else {
      CutBelowLink(h, whole, k, ipv6);
    }
  }

  /**
   * A capture of the first `k` bytes of any encoded frame: malformed when it stops inside
   * the headers' fixed parts; a fragment exactly when more fragments follow or the offset is
   * not zero, and not TCP exactly when an unfragmented packet carries another protocol;
   * otherwise every field is right and the payload is what was captured of it, flagged
   * truncated exactly when some is missing.
   */
  lemma SnapshotDissects(
    h: LinkHeader, ip: IpHeader, tcp: TcpHeader, payload: seq<Byte>, padding: seq<Byte>, k: nat,
    ipv6: seq<Byte> -> Dissection)
    requires Supported(h) && LeavesIpv4(h) && ValidPacket(ip, tcp, payload)
    requires k <= |FrameBytes(h, ip, tcp, payload, padding)|
    ensures DissectFrame(TypeOf(h), FrameBytes(h, ip, tcp, payload, padding)[..k], ipv6)
            == CutVerdict(h, ip, tcp, payload, k)
  {
    hide DissectFrame, DissectIpv4, PacketVerdict;
    FirstNibble(ip, IpLength(ip) + TcpLength(tcp) + |payload|, SegmentBytes(tcp, payload));
    if k >= |LinkBytes(h)| { Ipv4OfCut(ip, tcp, payload, padding, k - |LinkBytes(h)|); }
    CutFrame(h, PacketBytes(ip, tcp, payload) + padding, k, ipv6, CutVerdict(h, ip, tcp, payload, k));
  }

  /** A frame that carries a fragment, or another protocol, with any body at all. */
  lemma OtherFramesDissect(h: LinkHeader, ip: IpHeader, total: Word, body: seq<Byte>, ipv6: seq<Byte> -> Dissection)
    requires Supported(h) && LeavesIpv4(h) && ValidIp(ip) && (Fragmented(ip) || ip.protocol != IPPROTO_TCP)
    ensures DissectFrame(TypeOf(h), LinkBytes(h) + IpBytes(ip, total, body), ipv6) ==
            if Fragmented(ip) then IpFragment else NotTcp
  {
    hide DissectFrame, DissectIpv4;
    var packet := IpBytes(ip, total, body);
    FirstNibble(ip, total, body);
    OtherPackets(ip, total, body, |packet|);
    assert packet[..|packet|] == packet;
    FrameIsItsPacket(h, packet, ipv6);
  }

  /** Dissection inverts encoding, padding and all, for every packet that can be a segment. */
  lemma DissectInvertsEncode(
    h: LinkHeader, ip: IpHeader, tcp: TcpHeader, payload: seq<Byte>, padding: seq<Byte>,
    ipv6: seq<Byte> -> Dissection)
    requires Supported(h) && LeavesIpv4(h) && ValidPacket(ip, tcp, payload)
    ensures DissectFrame(TypeOf(h), FrameBytes(h, ip, tcp, payload, padding), ipv6) ==
            if Fragmented(ip) then IpFragment
            else if ip.protocol != IPPROTO_TCP then NotTcp
            else Tcp(Expected(ip, tcp, payload, |payload|))
  {
    hide DissectFrame;
    var data := FrameBytes(h, ip, tcp, payload, padding);
    assert data[..|data|] == data;
    SnapshotDissects(h, ip, tcp, payload, padding, |data|, ipv6);
  }

  /** For any bytes at all: a reported IPv4 payload is a run of the frame, never more than declared. */
  lemma PayloadIsCaptured(ip: seq<Byte>)
    requires DissectIpv4(ip).Tcp?
    ensures var p := DissectIpv4(ip).packet;
            && |p.payload| <= p.declared && (p.truncated <==> |p.payload| < p.declared)
            && exists i: nat :: Take(Drop(ip, i), |p.payload|) == p.payload
  {
    var headerLength := ip[0] % 16 * 4;
    var segment := Segment(ip, headerLength);
    var tcpHeader := segment[12] / 16 * 4;
    var p := DissectIpv4(ip).packet;
    RunOfRun(Drop(ip, headerLength), |segment|, tcpHeader, p.declared);
    assert Take(Drop(ip, headerLength), |segment|) == segment;
    assert Drop(Drop(ip, headerLength), tcpHeader) == Drop(ip, headerLength + tcpHeader);
    assert Take(Drop(ip, headerLength + tcpHeader), |p.payload|) == p.payload;
  }

  lemma RunOfRun(data: seq<Byte>, length: nat, skip: nat, want: nat)
    ensures var run := Take(Drop(Take(data, length), skip), want);
            Take(Drop(data, skip), |run|) == run
  {
  }
}
