/**
 * Storing an upload (backend/storage.py): a reader that never holds the whole
 * file, and the format detection (ingestion/formats.py) it must agree with.
 */
module Storage {
  import opened Assessment
  import opened Bytes

  // ---- container formats ---------------------------------------------------

  datatype CaptureFormat = Pcap | PcapNs | PcapNg | UnknownFormat

  datatype ByteOrder = Big | Little

  const MAGIC_LENGTH: nat := 12

  const SHB_TYPE: seq<Byte> := [0x0a, 0x0d, 0x0d, 0x0a]
  const BOM_LE: seq<Byte> := [0x4d, 0x3c, 0x2b, 0x1a]
  const BOM_BE: seq<Byte> := [0x1a, 0x2b, 0x3c, 0x4d]

  /** `PCAP_MAGICS`. */
  const PCAP_MAGICS: map<seq<Byte>, (CaptureFormat, ByteOrder)> :=
    map[[0xa1, 0xb2, 0xc3, 0xd4] := (Pcap, Big),
        [0xd4, 0xc3, 0xb2, 0xa1] := (Pcap, Little),
        [0xa1, 0xb2, 0x3c, 0x4d] := (PcapNs, Big),
        [0x4d, 0x3c, 0xb2, 0xa1] := (PcapNs, Little)]

  function DetectFormat(head: seq<Byte>): (CaptureFormat, Option<ByteOrder>) {
    if |head| < 4 then (UnknownFormat, None)
    else if head[..4] in PCAP_MAGICS then
      (PCAP_MAGICS[head[..4]].0, Some(PCAP_MAGICS[head[..4]].1))
    else if head[..4] == SHB_TYPE then
      if |head| >= 12 then
        if head[8..12] == BOM_LE then (PcapNg, Some(Little))
        else if head[8..12] == BOM_BE then (PcapNg, Some(Big))
        else (UnknownFormat, None)
      else (UnknownFormat, None)
    else (UnknownFormat, None)
  }

  /** `MAGIC_PREFIXES` of the store, written out separately from the detector's table. */
  const MAGIC_PREFIXES: seq<seq<Byte>> :=
    [[0xd4, 0xc3, 0xb2, 0xa1],
     [0xa1, 0xb2, 0xc3, 0xd4],
     [0x4d, 0x3c, 0xb2, 0xa1],
     [0xa1, 0xb2, 0x3c, 0x4d],
     [0x0a, 0x0d, 0x0d, 0x0a]]

  predicate HasMagicPrefix(head: seq<Byte>) {
    exists i :: 0 <= i < |MAGIC_PREFIXES| && MAGIC_PREFIXES[i] <= head
  }

  function Detected(data: seq<Byte>): CaptureFormat { DetectFormat(Take(data, MAGIC_LENGTH)).0 }

  /** The prefix filter never turns away a file the detector would accept. */
  lemma FilterAgreesWithDetector(data: seq<Byte>)
    ensures Detected(data) != UnknownFormat ==> HasMagicPrefix(Take(data, 8))
  {
    if Detected(data) != UnknownFormat {
      var head, first := Take(data, MAGIC_LENGTH), Take(data, 8);
      assert head[..4] == first[..4] == data[..4];
      var magic := data[..4];
      assert magic == [magic[0], magic[1], magic[2], magic[3]];
      var i := if magic == MAGIC_PREFIXES[0] then 0 else if magic == MAGIC_PREFIXES[1] then 1
               else if magic == MAGIC_PREFIXES[2] then 2 else if magic == MAGIC_PREFIXES[3] then 3 else 4;
      assert MAGIC_PREFIXES[i] == magic;
      assert magic <= first;
    }
  }

  /**
   * What the filter lets through and the detector still refuses: a pcapng block
   * type whose byte-order magic is missing or wrong, and nothing else.
   */
  lemma FilterGap(data: seq<Byte>)
    ensures HasMagicPrefix(Take(data, 8)) && Detected(data) == UnknownFormat <==>
            SHB_TYPE <= data && (|data| < 12 || data[8..12] !in [BOM_LE, BOM_BE])
  {
    if |data| >= 4 {
      var head, first := Take(data, MAGIC_LENGTH), Take(data, 8);
      assert head[..4] == first[..4] == data[..4];
      if |data| >= 12 { assert head[8..12] == data[8..12]; }
      if SHB_TYPE <= data {
        assert data[..4] == SHB_TYPE;
        assert MAGIC_PREFIXES[4] <= first;
        assert SHB_TYPE !in PCAP_MAGICS;
      } else if HasMagicPrefix(first) {
        var i :| 0 <= i < |MAGIC_PREFIXES| && MAGIC_PREFIXES[i] <= first;
        assert first[..4] == MAGIC_PREFIXES[i];
      }
    }
  }

  /** Four bytes as an unsigned number in the given byte order. */
  function Read32(data: seq<Byte>, i: nat, order: ByteOrder): int
    requires i + 4 <= |data|
  {
    match order
    case Big => DWordAt(data, i)
    case Little => DWordAt([data[i + 3], data[i + 2], data[i + 1], data[i]], 0)
  }

  /** Only one run of four bytes reads as a given number. */
  lemma FourBytes(data: seq<Byte>, i: nat, order: ByteOrder, magic: seq<Byte>)
    requires i + 4 <= |data| && |magic| == 4
    ensures Read32(data, i, order) == Read32(magic, 0, order) <==> data[i..i + 4] == magic
  {
    assert data[i..i + 4] == [data[i], data[i + 1], data[i + 2], data[i + 3]];
    assert magic == [magic[0], magic[1], magic[2], magic[3]];
    if order == Little {
      Digits(data[i + 3], data[i + 2], data[i + 1], data[i], magic[3], magic[2], magic[1], magic[0]);
    } else {
      Digits(data[i], data[i + 1], data[i + 2], data[i + 3], magic[0], magic[1], magic[2], magic[3]);
    }
  }

  lemma Digits(a: Byte, b: Byte, c: Byte, d: Byte, a': Byte, b': Byte, c': Byte, d': Byte)
    ensures DWordAt([a, b, c, d], 0) == DWordAt([a', b', c', d'], 0) <==>
            a == a' && b == b' && c == c' && d == d'
  {
    TwoDigits(0x1_0000, WordAt([a, b, c, d], 0), WordAt([a, b, c, d], 2),
              WordAt([a', b', c', d'], 0), WordAt([a', b', c', d'], 2));
    TwoDigits(256, a, b, a', b');
    TwoDigits(256, c, d, c', d');
  }

  lemma TwoDigits(base: nat, x: int, u: int, y: int, v: int)
    requires 0 <= u < base && 0 <= v < base
    ensures x * base + u == y * base + v <==> x == y && u == v
  {
    if x * base + u == y * base + v && x != y {
      assert (x - y) * base == v - u;
      OnlyZero(base, x - y);
    }
  }

  lemma OnlyZero(base: nat, k: int)
    requires k != 0
    ensures k * base >= base || k * base <= -(base as int)
  {
    assert k >= 1 ==> k * base >= 1 * base;
    assert k <= -1 ==> k * base <= -1 * base;
  }

  /**
   * A classic capture is recognised exactly when its magic number reads as the
   * microsecond or nanosecond constant in the reported byte order.
   */
  lemma DetectionReadsMagic(head: seq<Byte>, order: ByteOrder)
    ensures DetectFormat(head) == (Pcap, Some(order)) <==>
            |head| >= 4 && Read32(head, 0, order) == 0xA1B2_C3D4
    ensures DetectFormat(head) == (PcapNs, Some(order)) <==>
            |head| >= 4 && Read32(head, 0, order) == 0xA1B2_3C4D
  {
    if |head| >= 4 {
      FourBytes(head, 0, order, if order == Big then [0xa1, 0xb2, 0xc3, 0xd4] else [0xd4, 0xc3, 0xb2, 0xa1]);
      FourBytes(head, 0, order, if order == Big then [0xa1, 0xb2, 0x3c, 0x4d] else [0x4d, 0x3c, 0xb2, 0xa1]);
      assert head[0..4] == head[..4];
    }
  }

  /** A pcapng capture: the section block type, then its byte-order magic in the reported order. */
  lemma DetectionReadsByteOrderMagic(head: seq<Byte>, order: ByteOrder)
    ensures DetectFormat(head) == (PcapNg, Some(order)) <==>
            |head| >= 12 && head[..4] == SHB_TYPE && Read32(head, 8, order) == 0x1A2B_3C4D
  {
    if |head| >= 12 {
      FourBytes(head, 8, order, if order == Big then BOM_BE else BOM_LE);
      assert SHB_TYPE !in PCAP_MAGICS;
    }
  }

  // ---- the upload stream -------------------------------------------------------

  const CHUNK: nat := 0x10_0000

  /** A readable stream: how much one `read` yields, or whether it fails, is up to the transport. */
  class UploadStream {
    var remaining: seq<Byte>
    /** No read of this stream raises. */
    const reliable: bool

    constructor (data: seq<Byte>, neverFails: bool)
      ensures remaining == data && reliable == neverFails
    {
      remaining, reliable := data, neverFails;
    }

    /** Some non-empty prefix of what is left, at most `n` bytes; empty only at the end. */
    method Read(n: nat) returns (chunk: seq<Byte>, raised: bool)
      requires n > 0
      modifies this
      ensures old(remaining) == chunk + remaining
      ensures |chunk| <= n
      ensures raised ==> chunk == [] && !reliable
      ensures !raised ==> (chunk == [] <==> old(remaining) == [])
    {
      var fails: bool := *;
      if fails && !reliable {
        return [], true;
      }
      raised := false;
      if remaining == [] {
        chunk := [];
      } else {
        var most := if |remaining| < n then |remaining| else n;
        assert 1 <= most;
        var k :| 1 <= k <= most;
        chunk := remaining[..k];
        remaining := remaining[k..];
      }
    }
  }

  // ---- the store -------------------------------------------------------------------

  datatype Rejection = TooLarge | EmptyUpload | NotACapture | UnrecognisedFormat

  datatype StoreResult =
    | Stored(storageId: string, size: nat, digested: seq<Byte>, format: CaptureFormat)
    | Rejected(reason: Rejection)
    | Interrupted

  predicate IsHex(c: char) { '0' <= c <= '9' || 'a' <= c <= 'f' }

  predicate ValidStorageId(id: string) { 0 < |id| <= 64 && forall c | c in id :: IsHex(c) }

  /** What an upload deserves, from its bytes alone. */
  function Verdict(data: seq<Byte>, maxBytes: int): Option<Rejection> {
    if |data| > maxBytes && data != [] then Some(TooLarge)
    else if data == [] then Some(EmptyUpload)
    else if !HasMagicPrefix(Take(data, 8)) then Some(NotACapture)
    else if Detected(data) == UnknownFormat then Some(UnrecognisedFormat)
    else None
  }

  /** An upload is accepted exactly when it is non-empty, within the limit and recognised. */
  lemma AcceptedExactly(data: seq<Byte>, maxBytes: int)
    ensures Verdict(data, maxBytes) == None <==>
            0 < |data| <= maxBytes && Detected(data) != UnknownFormat
  {
    FilterAgreesWithDetector(data);
  }

  /** The first four bytes are the magic number of a capture format, read in either byte order. */
  predicate StartsLikeCapture(data: seq<Byte>) {
    && |data| >= 4
    && (|| (exists order :: Read32(data, 0, order) == 0xA1B2_C3D4)
        || (exists order :: Read32(data, 0, order) == 0xA1B2_3C4D)
        || Read32(data, 0, Big) == 0x0A0D_0D0A)
  }

  lemma PrefixIsMagic(data: seq<Byte>)
    ensures HasMagicPrefix(Take(data, 8)) <==> StartsLikeCapture(data)
  {
    if |data| >= 4 {
      assert Take(data, 8)[..4] == data[..4] == data[0..4];
      FourBytes(data, 0, Big, [0xa1, 0xb2, 0xc3, 0xd4]);
      FourBytes(data, 0, Little, [0xd4, 0xc3, 0xb2, 0xa1]);
      FourBytes(data, 0, Big, [0xa1, 0xb2, 0x3c, 0x4d]);
      FourBytes(data, 0, Little, [0x4d, 0x3c, 0xb2, 0xa1]);
      FourBytes(data, 0, Big, SHB_TYPE);
      PrefixIsOneOfFive(data);
    }
  }

  lemma PrefixIsOneOfFive(data: seq<Byte>)
    requires |data| >= 4
    ensures HasMagicPrefix(Take(data, 8)) <==> data[..4] in MAGIC_PREFIXES
  {
    var first := Take(data, 8);
    assert first[..4] == data[..4];
    if i :| 0 <= i < |MAGIC_PREFIXES| && MAGIC_PREFIXES[i] <= first {
      assert first[..4] == MAGIC_PREFIXES[i];
    }
    if data[..4] in MAGIC_PREFIXES {
      var i :| 0 <= i < |MAGIC_PREFIXES| && MAGIC_PREFIXES[i] == data[..4];
      assert MAGIC_PREFIXES[i] <= first;
    }
  }

  /**
   * Which reason a refused upload is given: too large before anything else is looked at;
   * empty; no capture when no format's magic number opens it; and unrecognised exactly when
   * a pcapng block type opens it without a byte-order magic.
   */
  lemma RejectedExactly(data: seq<Byte>, maxBytes: int)
    ensures Verdict(data, maxBytes) == Some(TooLarge) <==> data != [] && |data| > maxBytes
    ensures Verdict(data, maxBytes) == Some(EmptyUpload) <==> data == []
    ensures Verdict(data, maxBytes) == Some(NotACapture) <==> 0 < |data| <= maxBytes && !StartsLikeCapture(data)
    ensures Verdict(data, maxBytes) == Some(UnrecognisedFormat) <==>
            0 < |data| <= maxBytes && SHB_TYPE <= data && (|data| < 12 || data[8..12] !in [BOM_LE, BOM_BE])
  {
    PrefixIsMagic(data);
    FilterGap(data);
  }

  class CaptureStorage {
    var files: map<string, seq<Byte>>
    const maxBytes: int

    constructor (limit: int)
      ensures files == map[] && maxBytes == limit
    {
      files, maxBytes := map[], limit;
    }

    /**
     * `store`, with the random token as a parameter. The digest is the bytes it
     * was fed; the result depends on the upload alone, not on how it arrived.
     */
    method Store(stream: UploadStream, token: string) returns (result: StoreResult)
      requires ValidStorageId(token) && token !in files
      modifies this, stream
      ensures result.Interrupted? ==> !stream.reliable
      ensures !result.Interrupted? ==> (result.Stored? <==> Verdict(old(stream.remaining), maxBytes) == None)
      ensures result.Rejected? ==> Verdict(old(stream.remaining), maxBytes) == Some(result.reason)
      ensures !result.Stored? ==> files == old(files)
      ensures result.Stored? ==> files == old(files)[token := old(stream.remaining)]
      ensures result.Stored? ==>
        result == Stored(token, |old(stream.remaining)|, old(stream.remaining), Detected(old(stream.remaining)))
    {
      files := files[token := []];
      result := Receive(stream, token);
      ghost var others := files - {token};
      assert others == old(files);
      if !result.Stored? {
        files := files - {token};
      } else {
        assert files == others[token := files[token]];
      }
    }

    /** The guarded part of `store`: whatever it raises, the caller unlinks the file. */
    method Receive(stream: UploadStream, token: string) returns (result: StoreResult)
      requires token in files && files[token] == []
      modifies this, stream
      ensures token in files && files - {token} == old(files) - {token}
      ensures result.Interrupted? ==> !stream.reliable
      ensures !result.Interrupted? ==> (result.Stored? <==> Verdict(old(stream.remaining), maxBytes) == None)
      ensures result.Rejected? ==> Verdict(old(stream.remaining), maxBytes) == Some(result.reason)
      ensures result.Stored? ==> files[token] == old(stream.remaining)
      ensures result.Stored? ==>
        result == Stored(token, |old(stream.remaining)|, old(stream.remaining), Detected(old(stream.remaining)))
    {
      ghost var data, before := stream.remaining, files;
      var total, head, digest := 0, [], [];
      while true
        invariant files == before[token := digest]
        invariant data == digest + stream.remaining
        invariant total == |digest| && head == Take(digest, 8)
        invariant total <= maxBytes || total == 0
        decreases |stream.remaining|
      {
        var chunk, raised := stream.Read(CHUNK);
        if raised { return Interrupted; }
        if chunk == [] { break; }
        total := total + |chunk|;
        if total > maxBytes { return Rejected(TooLarge); }
        if |head| < 8 {
          head := head + Take(chunk, 8 - |head|);
        }
        digest := digest + chunk;
        files := files[token := files[token] + chunk];
      }
      assert digest == data;
      if total == 0 { return Rejected(EmptyUpload); }
      if !HasMagicPrefix(head) { return Rejected(NotACapture); }
      var detected := DetectFormat(Take(files[token], MAGIC_LENGTH)).0;
      if detected == UnknownFormat { return Rejected(UnrecognisedFormat); }
      result := Stored(token, total, digest, detected);
    }
  }
}
