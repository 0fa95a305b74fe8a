/** The FieldTrip realtime-buffer header: the metadata record the buffer
    server sends, decoded from a byte buffer, or built as an outbound
    descriptor.

    Wire layout, big-endian: six 32-bit words (channel count, sample count,
    event count, sampling rate as float bits, data type, byte length of the
    chunk table), then chunk records, each a kind word, a length word and
    that many payload bytes. Only the channel-names chunk is interpreted.

    `DecodeRecord` is the specification of the decoding constructor: what
    it produces (or the exception it raises) and where it leaves the
    buffer's position. `Header.Decode` runs it step by step on a `ByteBuffer`
    and fills the label array in place; its postcondition ties the two
    together. */
module FieldTripHeader {
  import opened Wire
  import opened ChannelNames

  const CHUNK_UNKNOWN: int32 := 0
  const CHUNK_CHANNEL_NAMES: int32 := 1
  const CHUNK_CHANNEL_FLAGS: int32 := 2
  const CHUNK_RESOLUTIONS: int32 := 3
  const CHUNK_ASCII_KEYVAL: int32 := 4
  const CHUNK_NIFTI1: int32 := 5
  const CHUNK_SIEMENS_AP: int32 := 6
  const CHUNK_CTF_RES4: int32 := 7

  /** The public fields of a header object; `fSample` is the float's bit pattern. */
  datatype HeaderValue = HeaderValue(
    nChans: int32, nSamples: int32, nEvents: int32, fSample: uint32, dataType: int32,
    labels: Labels)

  /** What a decoding step produced, and the buffer position it left behind
      (on an exception too: the reads before it have moved the position). */
  datatype Run<T> = Run(result: Result<T>, position: nat)

  /** A freshly allocated label array: every entry `null`. */
  function AllAbsent(n: nat): (r: Labels)
    ensures |r| == n && forall k :: 0 <= k < n ==> r[k] == None
  {
    seq(n, _ => None)
  }

  /** The labels a channel-names payload leaves, given those before it. */
  function ApplyChunk(kind: int32, payload: seq<byte>, labels: Labels): (r: Labels)
    ensures |r| == |labels|
    ensures kind != CHUNK_CHANNEL_NAMES ==> r == labels
  {
    if kind == CHUNK_CHANNEL_NAMES then ApplyNames(labels, Entries(payload)) else labels
  }

  /** One chunk record at `pos`: the reads of its kind and length words,
      the allocation of its payload, the payload read and, for a
      channel-names chunk, the name scan. On success, the payload length and
      the labels after the record. */
  function ChunkAt(data: seq<byte>, pos: nat, nChans: nat, labels: Labels): (run: Run<(nat, Labels)>)
    requires pos <= |data|
    ensures pos <= run.position <= |data|
    ensures run.result.Ok? ==> run.position == pos + 8 + run.result.value.0
    ensures run.result.Ok? ==> |run.result.value.1| == |labels|
  {
    if |data| - pos < 4 then Run(Err(BufferUnderflow), pos)
    else if |data| - pos < 8 then Run(Err(BufferUnderflow), pos + 4)
    else
      var kind, len := Int32At(data, pos), Int32At(data, pos + 4);
      if len < 0 then Run(Err(NegativeArraySize), pos + 8)
      else if |data| - (pos + 8) < len as int then Run(Err(BufferUnderflow), pos + 8)
      else
        var next := pos + 8 + len as int;
        var payload := data[pos + 8..next];
        if kind == CHUNK_CHANNEL_NAMES && !NamesFit(payload, nChans) then Run(Err(IndexOutOfBounds), next)
        else Run(Ok((len as nat, ApplyChunk(kind, payload, labels))), next)
  }

  /** A record whose words and payload are read without running out of
      bytes and whose names fit decodes to its payload length and the labels
      its chunk leaves. */
  lemma ChunkAtOk(data: seq<byte>, pos: nat, nChans: nat, labels: Labels, kind: int32, payload: seq<byte>)
    requires pos + 8 + |payload| <= |data| && data[pos + 8..pos + 8 + |payload|] == payload
    requires Int32At(data, pos) == kind && Int32At(data, pos + 4) as int == |payload|
    requires kind == CHUNK_CHANNEL_NAMES ==> NamesFit(payload, nChans)
    ensures ChunkAt(data, pos, nChans, labels) ==
      Run(Ok((|payload| as nat, ApplyChunk(kind, payload, labels))), pos + 8 + |payload|)
  {
  }

  /** The chunk loop, started at `pos` with `size` bytes of table left. */
  function Chunks(data: seq<byte>, pos: nat, size: int, nChans: nat, labels: Labels): (run: Run<Labels>)
    requires pos <= |data|
    ensures pos <= run.position <= |data|
    ensures run.result.Ok? ==> |run.result.value| == |labels|
    decreases if size > 0 then size else 0
  {
    if size <= 0 then Run(Ok(labels), pos)
    else
      var step := ChunkAt(data, pos, nChans, labels);
      if step.result.Err? then Run(Err(step.result.failure), step.position)
      else Chunks(data, step.position, size - (8 + step.result.value.0), nChans, step.result.value.1)
  }

  /** A positive table size and a record read without exception: the loop
      goes on after the record with the size lowered by what it consumed. */
  lemma ChunksStep(data: seq<byte>, pos: nat, size: int, nChans: nat, labels: Labels,
                   len: nat, labels': Labels, rest: int, final: Labels, end: nat)
    requires pos <= |data| && size > 0 && rest == size - (8 + len)
    requires ChunkAt(data, pos, nChans, labels) == Run(Ok((len, labels')), pos + 8 + len)
    requires Chunks(data, pos + 8 + len, rest, nChans, labels') == Run(Ok(final), end)
    ensures Chunks(data, pos, size, nChans, labels) == Run(Ok(final), end)
  {
  }

  /** The six words of the fixed prefix, in wire order; `fSample` is the float's bit pattern. */
  datatype Prefix = Prefix(
    nChans: int32, nSamples: int32, nEvents: int32, fSample: uint32, dataType: int32, size: int32)

  /** The bytes the prefix reads consume before one of them underflows:
      each read that still finds four bytes succeeds, the next one throws. */
  function PrefixWordsRead(remaining: nat): (n: nat)
    requires remaining < 24
    ensures n <= remaining < n + 4 && n % 4 == 0
  {
    if remaining < 4 then 0 else if remaining < 8 then 4 else if remaining < 12 then 8
    else if remaining < 16 then 12 else if remaining < 20 then 16 else 20
  }

  /** The six prefix reads from position `start`. */
  function ReadPrefixAt(data: seq<byte>, start: nat): (run: Run<Prefix>)
    requires start <= |data|
    ensures start <= run.position <= |data|
    ensures run.result.Ok? <==> |data| - start >= 24
    ensures run.result.Ok? ==> run.position == start + 24
    ensures run.result.Err? ==> run.result.failure == BufferUnderflow && |data| - run.position < 4
  {
    if |data| - start < 24 then Run(Err(BufferUnderflow), start + PrefixWordsRead(|data| - start))
    else
      Run(Ok(Prefix(Int32At(data, start), Int32At(data, start + 4), Int32At(data, start + 8),
                    Uint32At(data, start + 12), Int32At(data, start + 16), Int32At(data, start + 20))),
          start + 24)
  }

  /** The decoding constructor applied to a buffer whose position is `start`. */
  function DecodeRecord(data: seq<byte>, start: nat): (run: Run<HeaderValue>)
    requires start <= |data|
    ensures start <= run.position <= |data|
    ensures run.result.Ok? ==>
      run.position >= start + 24 && run.result.value.nChans >= 0 &&
      |run.result.value.labels| == run.result.value.nChans as int
  {
    var prefix := ReadPrefixAt(data, start);
    match prefix.result
    case Err(f) => Run(Err(f), prefix.position)
    case Ok(p) =>
      if p.nChans < 0 then Run(Err(NegativeArraySize), prefix.position)
      else
        var table := Chunks(data, prefix.position, p.size as int, p.nChans as nat, AllAbsent(p.nChans as nat));
        var result := match table.result
          case Ok(labels) => Ok(HeaderValue(p.nChans, p.nSamples, p.nEvents, p.fSample, p.dataType, labels))
          case Err(f) => Err(f);
        Run(result, table.position)
  }

  class Header {
    var nChans: int32
    var nSamples: int32
    var nEvents: int32
    var fSample: uint32
    var dataType: int32
    var labels: array<Option<Label>>

    /** One label slot per channel. */
    ghost predicate Valid()
      reads this
    {
      labels.Length == nChans as int
    }

    function View(): HeaderValue
      reads this, labels
    {
      HeaderValue(nChans, nSamples, nEvents, fSample, dataType, labels[..])
    }

    /** The outbound descriptor: counts zero, labels allocated but not filled. */
    constructor Descriptor(nChans: int32, fSample: uint32, dataType: int32)
      requires nChans >= 0
      ensures Valid() && fresh(labels)
      ensures View() == HeaderValue(nChans, 0, 0, fSample, dataType, AllAbsent(nChans as nat))
    {
      this.nChans := nChans;
      this.fSample := fSample;
      this.nSamples := 0;
      this.nEvents := 0;
      this.dataType := dataType;
      this.labels := new Option<Label>[nChans as int](_ => None);
    }

    /** The fields as the decoding constructor assigns them from the fixed prefix. */
    constructor Decoded(nChans: int32, nSamples: int32, nEvents: int32, fSample: uint32, dataType: int32)
      requires nChans >= 0
      ensures Valid() && fresh(labels)
      ensures View() == HeaderValue(nChans, nSamples, nEvents, fSample, dataType, AllAbsent(nChans as nat))
    {
      this.nChans := nChans;
      this.nSamples := nSamples;
      this.nEvents := nEvents;
      this.fSample := fSample;
      this.dataType := dataType;
      this.labels := new Option<Label>[nChans as int](_ => None);
    }

    /** The descriptor constructor with Java's allocation failure for a negative count. */
    static method NewDescriptor(nChans: int32, fSample: uint32, dataType: int32) returns (r: Result<Header>)
      ensures r.Err? <==> nChans < 0
      ensures r.Err? ==> r.failure == NegativeArraySize
      ensures r.Ok? ==> fresh(r.value) && fresh(r.value.labels) && r.value.Valid()
      ensures r.Ok? ==> r.value.View() == HeaderValue(nChans, 0, 0, fSample, dataType, AllAbsent(nChans as nat))
    {
      if nChans < 0 {
        return Err(NegativeArraySize);
      }
      var h := new Header.Descriptor(nChans, fSample, dataType);
      return Ok(h);
    }

    /** The scan of one channel-names payload `bs`, storing labels in place.
        `ok` is false when Java's store into the label array would throw. */
    method ScanChannelNames(bs: seq<byte>) returns (ok: bool)
      requires Valid()
      modifies labels
      ensures ok == NamesFit(bs, nChans as nat)
      ensures labels[..] == if ok then ApplyNames(old(labels[..]), Entries(bs)) else old(labels[..])
    {
      ghost var initial := labels[..];
      var n: nat, len: nat := 0, 0;
      var pos := 0;
      while pos < |bs|
        invariant Scanned(bs, pos, n, len, nChans as nat, initial, labels[..])
      {
        if bs[pos] == 0 {
          ghost var before := labels[..];
          if len > 0 {
            if n >= labels.Length {
              // no channels: Java's store into labels[n] is out of bounds
              ScanOutOfBounds(bs, pos, n, len, nChans as nat, initial, labels[..]);
              return false;
            }
            labels[n] := Some(bs[pos - len..pos]);
          }
          ScanTerminator(bs, pos, n, len, nChans as nat, initial, before, labels[..]);
          len := 0;
          n := n + 1;
          if n == nChans as int {
            // every channel has had its entry: the rest of the payload is ignored
            return true;
          }
        } else {
          ScanNonZero(bs, pos, n, len, nChans as nat, initial, labels[..]);
          len := len + 1;
        }
        pos := pos + 1;
      }
      ScanDone(bs, n, len, nChans as nat, initial, labels[..]);
      ok := true;
    }

    /** The decoding constructor: reads the fixed prefix and the chunk table
        from `buf`, advancing its position. */
    static method Decode(buf: ByteBuffer) returns (r: Result<Header>)
      requires buf.Valid()
      modifies buf`position
      ensures buf.Valid()
      ensures buf.position == DecodeRecord(buf.data, old(buf.position)).position
      ensures r.Ok? ==> fresh(r.value) && fresh(r.value.labels) && r.value.Valid()
      ensures DecodeRecord(buf.data, old(buf.position)).result == if r.Ok? then Ok(r.value.View()) else Err(r.failure)
    {
      var p :- ReadPrefix(buf);
      if p.nChans < 0 {
        return Err(NegativeArraySize);
      }
      var h := new Header.Decoded(p.nChans, p.nSamples, p.nEvents, p.fSample, p.dataType);
      var table := h.ReadChunks(buf, p.size);
      if table.Err? {
        return Err(table.failure);
      }
      return Ok(h);
    }

    /** The six `getInt`/`getFloat` calls at the start of the decoding constructor. */
    static method ReadPrefix(buf: ByteBuffer) returns (r: Result<Prefix>)
      requires buf.Valid()
      modifies buf`position
      ensures buf.Valid()
      ensures ReadPrefixAt(buf.data, old(buf.position)) == Run(r, buf.position)
    {
      var nChans :- buf.GetInt();
      var nSamples :- buf.GetInt();
      var nEvents :- buf.GetInt();
      var fSample :- buf.GetFloatBits();
      var dataType :- buf.GetInt();
      var size :- buf.GetInt();
      return Ok(Prefix(nChans, nSamples, nEvents, fSample, dataType, size));
    }

    /** The `while (size > 0)` loop of the decoding constructor: reads chunk
        records until `size` bytes of table are used up. */
    method ReadChunks(buf: ByteBuffer, size: int32) returns (r: Result<()>)
      requires Valid() && buf.Valid()
      modifies buf`position, labels
      ensures buf.Valid()
      ensures var run := Chunks(buf.data, old(buf.position), size as int, nChans as nat, old(labels[..]));
        buf.position == run.position && run.result == if r.Ok? then Ok(labels[..]) else Err(r.failure)
    {
      ghost var goal := Chunks(buf.data, buf.position, size as int, nChans as nat, labels[..]);
      var size := size;
      while size > 0
        invariant Valid() && buf.Valid()
        invariant Chunks(buf.data, buf.position, size as int, nChans as nat, labels[..]) == goal
        decreases size
      {
        var len :- ReadChunk(buf);
        size := size - (8 + len as int32);
      }
      return Ok(());
    }

    /** One pass of the loop body: a chunk record's kind and length, its
        payload, and the name scan when it is a channel-names chunk; every
        other kind is skipped. */
    method ReadChunk(buf: ByteBuffer) returns (r: Result<nat>)
      requires Valid() && buf.Valid()
      modifies buf`position, labels
      ensures buf.Valid()
      ensures ChunkAt(buf.data, old(buf.position), nChans as nat, old(labels[..])) ==
        Run(if r.Ok? then Ok((r.value, labels[..])) else Err(r.failure), buf.position)
    {
      var chunkType :- buf.GetInt();
      var chunkSize :- buf.GetInt();
      if chunkSize < 0 {
        return Err(NegativeArraySize);
      }
      var bs :- buf.Get(chunkSize as nat);
      if chunkType == CHUNK_CHANNEL_NAMES {
        var ok := ScanChannelNames(bs);
        if !ok {
          return Err(IndexOutOfBounds);
        }
      }
      return Ok(chunkSize as nat);
    }
  }

  /** The state of the name scan after `pos` payload bytes: `n` terminators
      and a run of `len` non-zero bytes seen, the labels of `current`
      written, and the scan not yet stopped. */
  ghost predicate Scanned(bs: seq<byte>, pos: nat, n: nat, len: nat, nChans: nat, initial: Labels, current: Labels)
  {
    pos <= |bs| && |initial| == nChans &&
    n == |Entries(bs[..pos])| && len == |Pending(bs[..pos])| &&
    (nChans > 0 ==> n < nChans) &&
    (nChans == 0 ==> AllEmpty(Entries(bs[..pos]))) &&
    current == ApplyNames(initial, Entries(bs[..pos]))
  }

  lemma ScanNonZero(bs: seq<byte>, pos: nat, n: nat, len: nat, nChans: nat, initial: Labels, current: Labels)
    requires Scanned(bs, pos, n, len, nChans, initial, current)
    requires pos < |bs| && bs[pos] != 0
    ensures Scanned(bs, pos + 1, n, len + 1, nChans, initial, current)
  {
    ScanStep(bs, pos);
  }

  /** A zero byte ends entry `n`: a non-empty one is stored at slot `n`;
      after the `nChans`-th terminator the labels are final. */
  lemma ScanTerminator(bs: seq<byte>, pos: nat, n: nat, len: nat, nChans: nat,
                       initial: Labels, current: Labels, next: Labels)
    requires Scanned(bs, pos, n, len, nChans, initial, current)
    requires pos < |bs| && bs[pos] == 0 && (len > 0 ==> n < nChans)
    requires next == if len > 0 then current[n := Some(bs[pos - len..pos])] else current
    ensures n + 1 == nChans ==> next == ApplyNames(initial, Entries(bs)) && NamesFit(bs, nChans)
    ensures n + 1 != nChans ==> Scanned(bs, pos + 1, n + 1, 0, nChans, initial, next)
  {
    TerminatorStored(bs, pos, n, len, nChans, initial, current, next);
    if n + 1 == nChans {
      LastSlotNamed(bs, pos + 1, initial);
    }
  }

  /** Once the entries of `bs[..p]` reach every slot, the rest of `bs` changes no label. */
  lemma LastSlotNamed(bs: seq<byte>, p: nat, initial: Labels)
    requires p <= |bs| && |initial| <= |Entries(bs[..p])|
    ensures ApplyNames(initial, Entries(bs[..p])) == ApplyNames(initial, Entries(bs))
  {
    EntriesPrefix(bs, p);
    ApplyNamesPrefix(initial, Entries(bs[..p]), Entries(bs));
  }

  /** The labels after the store at a zero byte are those the entries up to
      and including that byte spell. */
  lemma TerminatorStored(bs: seq<byte>, pos: nat, n: nat, len: nat, nChans: nat,
                         initial: Labels, current: Labels, next: Labels)
    requires Scanned(bs, pos, n, len, nChans, initial, current)
    requires pos < |bs| && bs[pos] == 0 && (len > 0 ==> n < nChans)
    requires next == if len > 0 then current[n := Some(bs[pos - len..pos])] else current
    ensures Entries(bs[..pos + 1]) == Entries(bs[..pos]) + [Pending(bs[..pos])]
    ensures |Entries(bs[..pos + 1])| == n + 1 && Pending(bs[..pos + 1]) == []
    ensures next == ApplyNames(initial, Entries(bs[..pos + 1]))
    ensures nChans == 0 ==> AllEmpty(Entries(bs[..pos + 1]))
  {
    ScanStep(bs, pos);
    ApplyNamesSnoc(initial, Entries(bs[..pos]), Pending(bs[..pos]));
  }

  /** With no channels, a non-empty entry cannot be stored. */
  lemma ScanOutOfBounds(bs: seq<byte>, pos: nat, n: nat, len: nat, nChans: nat, initial: Labels, current: Labels)
    requires Scanned(bs, pos, n, len, nChans, initial, current)
    requires pos < |bs| && bs[pos] == 0 && len > 0 && n >= nChans
    ensures !NamesFit(bs, nChans) && nChans == 0 && current == initial
  {
    ScanStep(bs, pos);
    EntriesPrefix(bs, pos + 1);
    assert Entries(bs)[n] == Pending(bs[..pos]);
  }

  /** A payload scanned to its end without stopping. */
  lemma ScanDone(bs: seq<byte>, n: nat, len: nat, nChans: nat, initial: Labels, current: Labels)
    requires Scanned(bs, |bs|, n, len, nChans, initial, current)
    ensures NamesFit(bs, nChans) && current == ApplyNames(initial, Entries(bs))
  {
    assert bs[..|bs|] == bs;
  }
}
