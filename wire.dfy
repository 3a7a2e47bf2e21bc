/** The two control messages exchanged over the flow. Both are the fields
    packed in declaration order, each in its native width and byte order,
    with no padding, length prefix or version tag. */
module Wire {
  import opened Bytes

  /** Widths of the fields, as declared in the client and the peer. */
  const CountSize: nat := 8       // unsigned long long count
  const DurationSize: nat := 4    // unsigned int duration
  const SduSizeSize: nat := 4     // unsigned int sduSize
  const SeqSize: nat := 8         // unsigned long long seq
  const TotalBytesSize: nat := 8  // unsigned long long totalBytes
  const MsSize: nat := 4          // unsigned int ms

  /** sizeof(count) + sizeof(duration) + sizeof(sduSize) */
  const InitSize: nat := CountSize + DurationSize + SduSizeSize
  /** The part of the response buffer the Result fields occupy. */
  const ResultSize: nat := SeqSize + TotalBytesSize + MsSize
  /** The fixed size of the buffer the client receives control messages into. */
  const ResponseSize: nat := 50

  /** Sent client to server before the data phase. */
  datatype InitMessage = InitMessage(count: uint64, duration: uint32, sduSize: uint32)

  /** Sent server to client after the data phase. */
  datatype ResultMessage = ResultMessage(seqCount: uint64, totalBytes: uint64, ms: uint32)

  function EncodeInit(m: InitMessage): (s: seq<byte>)
    ensures |s| == InitSize
  {
    Pow256Widths();
    LE(m.count, CountSize) + LE(m.duration, DurationSize) + LE(m.sduSize, SduSizeSize)
  }

  /** How the peer reads an Init message: the same offsets as the encoder. */
  function DecodeInit(s: seq<byte>): (m: InitMessage)
    requires |s| == InitSize
  {
    Pow256Widths();
    InitMessage(FromLE(s[..CountSize]),
                FromLE(s[CountSize..CountSize + DurationSize]),
                FromLE(s[CountSize + DurationSize..]))
  }

  /** How the peer writes a Result message into the first ResultSize bytes it sends. */
  function EncodeResult(m: ResultMessage): (s: seq<byte>)
    ensures |s| == ResultSize
  {
    Pow256Widths();
    LE(m.seqCount, SeqSize) + LE(m.totalBytes, TotalBytesSize) + LE(m.ms, MsSize)
  }

  /** How the client reads a Result: `seq` (here `seqCount`) from [0,8), `totalBytes` from [8,16),
      `ms` from [16,20); whatever follows is ignored. */
  function DecodeResult(s: seq<byte>): (m: ResultMessage)
    requires |s| >= ResultSize
    ensures EncodeResult(m) == s[..ResultSize]
  {
    Pow256Widths();
    LEOfFromLE(s[..SeqSize]);
    LEOfFromLE(s[SeqSize..SeqSize + TotalBytesSize]);
    LEOfFromLE(s[SeqSize + TotalBytesSize..ResultSize]);
    assert s[..ResultSize] == s[..SeqSize] + s[SeqSize..SeqSize + TotalBytesSize] + s[SeqSize + TotalBytesSize..ResultSize];
    ResultMessage(FromLE(s[..SeqSize]),
                  FromLE(s[SeqSize..SeqSize + TotalBytesSize]),
                  FromLE(s[SeqSize + TotalBytesSize..ResultSize]))
  }

  /** Decoding an encoded Init gives back the three fields. */
  lemma InitRoundTrip(m: InitMessage)
    ensures DecodeInit(EncodeInit(m)) == m
  {
    Pow256Widths();
    var s := EncodeInit(m);
    assert s[..CountSize] == LE(m.count, CountSize);
    assert s[CountSize..CountSize + DurationSize] == LE(m.duration, DurationSize);
    assert s[CountSize + DurationSize..] == LE(m.sduSize, SduSizeSize);
    FromLEOfLE(m.count, CountSize);
    FromLEOfLE(m.duration, DurationSize);
    FromLEOfLE(m.sduSize, SduSizeSize);
  }

  /** Every 16-byte buffer is the encoding of the Init it decodes to:
      the layout has no gaps and no unused bytes. */
  lemma InitEncodingOnto(s: seq<byte>)
    requires |s| == InitSize
    ensures EncodeInit(DecodeInit(s)) == s
  {
    Pow256Widths();
    LEOfFromLE(s[..CountSize]);
    LEOfFromLE(s[CountSize..CountSize + DurationSize]);
    LEOfFromLE(s[CountSize + DurationSize..]);
    assert s == s[..CountSize] + s[CountSize..CountSize + DurationSize] + s[CountSize + DurationSize..];
  }

  /** A response whose first 20 bytes were produced by the peer's encoder
      decodes to the triple that was encoded, whatever bytes follow. */
  lemma ResultRoundTrip(m: ResultMessage, rest: seq<byte>)
    ensures DecodeResult(EncodeResult(m) + rest) == m
  {
    Pow256Widths();
    var s := EncodeResult(m) + rest;
    assert s[..SeqSize] == LE(m.seqCount, SeqSize);
    assert s[SeqSize..SeqSize + TotalBytesSize] == LE(m.totalBytes, TotalBytesSize);
    assert s[SeqSize + TotalBytesSize..ResultSize] == LE(m.ms, MsSize);
    FromLEOfLE(m.seqCount, SeqSize);
    FromLEOfLE(m.totalBytes, TotalBytesSize);
    FromLEOfLE(m.ms, MsSize);
  }

  /** Only the first ResultSize bytes of a response matter to the decoder. */
  lemma DecodeResultReadsPrefix(s: seq<byte>, t: seq<byte>)
    requires |s| >= ResultSize && |t| >= ResultSize
    requires s[..ResultSize] == t[..ResultSize]
    ensures DecodeResult(s) == DecodeResult(t)
  {
    assert s[..SeqSize] == s[..ResultSize][..SeqSize];
    assert t[..SeqSize] == t[..ResultSize][..SeqSize];
    assert s[SeqSize..SeqSize + TotalBytesSize] == s[..ResultSize][SeqSize..SeqSize + TotalBytesSize];
    assert t[SeqSize..SeqSize + TotalBytesSize] == t[..ResultSize][SeqSize..SeqSize + TotalBytesSize];
    assert s[SeqSize + TotalBytesSize..ResultSize] == s[..ResultSize][SeqSize + TotalBytesSize..];
    assert t[SeqSize + TotalBytesSize..ResultSize] == t[..ResultSize][SeqSize + TotalBytesSize..];
  }

  /** `generateTraffic`'s three `memcpy` calls into `initData`. */
  method PackInit(m: InitMessage) returns (data: seq<byte>)
    ensures |data| == InitSize
    ensures data == EncodeInit(m)
    ensures DecodeInit(data) == m
  {
    Pow256Widths();
    var initData := new byte[InitSize];
    WriteLE(initData, 0, m.count, CountSize);
    WriteLE(initData, CountSize, m.duration, DurationSize);
    WriteLE(initData, CountSize + DurationSize, m.sduSize, SduSizeSize);
    data := initData[..];
    assert data[..CountSize] == LE(m.count, CountSize);
    assert data[CountSize..CountSize + DurationSize] == LE(m.duration, DurationSize);
    assert data[CountSize + DurationSize..] == LE(m.sduSize, SduSizeSize);
    assert data == data[..CountSize] + data[CountSize..CountSize + DurationSize] + data[CountSize + DurationSize..];
    InitRoundTrip(m);
  }

  /** `generateTraffic`'s three `memcpy` calls out of `response`. */
  method UnpackResult(response: array<byte>) returns (r: ResultMessage)
    requires response.Length == ResponseSize
    ensures r == DecodeResult(response[..])
  {
    Pow256Widths();
    var seqCount := ReadLE(response, 0, SeqSize);
    var totalBytes := ReadLE(response, SeqSize, TotalBytesSize);
    var ms := ReadLE(response, SeqSize + TotalBytesSize, MsSize);
    assert response[..][..SeqSize] == response[0..SeqSize];
    r := ResultMessage(seqCount, totalBytes, ms);
  }
}
