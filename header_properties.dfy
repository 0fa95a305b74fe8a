/** What the decoder promises, stated over `DecodeRecord` and `Chunks`.

    `EncodeRecord` packs a header in the layout the decoder reads (six
    words, then the chunk records); `DecodeOfEncoded` shows the decoder
    inverts it, giving back the fields and the labels the name chunks
    spell. */
module HeaderProperties {
  import opened Wire
  import opened ChannelNames
  import opened FieldTripHeader

  /** A chunk record before encoding. */
  datatype Chunk = Chunk(kind: int32, payload: seq<byte>)

  /** Every payload length fits the 32-bit length word. */
  predicate WellSized(cs: seq<Chunk>)
  {
    forall i :: 0 <= i < |cs| ==> |cs[i].payload| <= MaxCapacity
  }

  /** Each name chunk in `cs` can be stored into `nChans` label slots. */
  predicate ChunksFit(cs: seq<Chunk>, nChans: nat)
  {
    forall i :: 0 <= i < |cs| && cs[i].kind == CHUNK_CHANNEL_NAMES ==> NamesFit(cs[i].payload, nChans)
  }

  /** The chunk records back to back: kind word, length word, payload. */
  function EncodeChunks(cs: seq<Chunk>): (s: seq<byte>)
    requires WellSized(cs)
  {
    if cs == [] then []
    else Int32Bytes(cs[0].kind) + (Int32Bytes(|cs[0].payload| as int32) + (cs[0].payload + EncodeChunks(cs[1..])))
  }

  /** The labels left after applying the chunks in order. */
  function ApplyChunks(labels: Labels, cs: seq<Chunk>): Labels
    decreases |cs|
  {
    if cs == [] then labels else ApplyChunks(ApplyChunk(cs[0].kind, cs[0].payload, labels), cs[1..])
  }

  /** A header record: the six prefix words, the last one the chunk table's length, then the table. */
  function EncodeRecord(nChans: int32, nSamples: int32, nEvents: int32, fSample: uint32, dataType: int32,
                        cs: seq<Chunk>): (s: seq<byte>)
    requires WellSized(cs) && |EncodeChunks(cs)| <= MaxCapacity
  {
    Int32Bytes(nChans) + (Int32Bytes(nSamples) + (Int32Bytes(nEvents) + (Uint32Bytes(fSample)
    + (Int32Bytes(dataType) + (Int32Bytes(|EncodeChunks(cs)| as int32) + EncodeChunks(cs))))))
  }

  /** Every slot of `after` either kept its label from `before` or holds a non-empty name. */
  ghost predicate OnlyNamesWritten(before: Labels, after: Labels)
  {
    |after| == |before| &&
    forall k :: 0 <= k < |after| ==> after[k] == before[k] || (after[k].Some? && after[k].value != [])
  }

  /** The loop over the chunk table: it stays inside the buffer, keeps the
      label count, stops at once when the table size is not positive, and
      otherwise consumes at least the declared table size; labels change
      only to non-empty names. */
  lemma {:induction false} ChunksFacts(data: seq<byte>, pos: nat, size: int, nChans: nat, labels: Labels)
    requires pos <= |data|
    ensures var run := Chunks(data, pos, size, nChans, labels);
      pos <= run.position <= |data| &&
      (size <= 0 ==> run == Run(Ok(labels), pos)) &&
      (run.result.Ok? ==> run.position - pos >= size && OnlyNamesWritten(labels, run.result.value))
    decreases if size > 0 then size else 0
  {
    if size > 0 {
      var step := ChunkAt(data, pos, nChans, labels);
      if step.result.Ok? {
        var len, labels' := step.result.value.0, step.result.value.1;
        ChunkAtWrites(data, pos, nChans, labels);
        ChunksFacts(data, step.position, size - (8 + len), nChans, labels');
      }
    }
  }

  /** A chunk record leaves the label count alone and writes only non-empty names. */
  lemma ChunkAtWrites(data: seq<byte>, pos: nat, nChans: nat, labels: Labels)
    requires pos <= |data|
    ensures var step := ChunkAt(data, pos, nChans, labels);
      step.result.Ok? ==> OnlyNamesWritten(labels, step.result.value.1)
  {
    var step := ChunkAt(data, pos, nChans, labels);
    if step.result.Ok? {
      var kind, len := Int32At(data, pos), Int32At(data, pos + 4) as int;
      var payload := data[pos + 8..pos + 8 + len];
      var labels' := step.result.value.1;
      assert labels' == ApplyChunk(kind, payload, labels);
      forall k | 0 <= k < |labels| ensures labels'[k] == labels[k] || (labels'[k].Some? && labels'[k].value != []) {
        if kind == CHUNK_CHANNEL_NAMES { ApplyNamesAt(labels, Entries(payload), k); }
      }
    }
  }

  /** A chunk record underflows exactly when the buffer ends inside its two
      header words or inside the payload its length word announces. */
  lemma ChunkAtUnderflow(data: seq<byte>, pos: nat, nChans: nat, labels: Labels)
    requires pos <= |data|
    ensures ChunkAt(data, pos, nChans, labels).result == Err(BufferUnderflow) <==>
      |data| - pos < 8 || (Int32At(data, pos + 4) >= 0 && |data| - (pos + 8) < Int32At(data, pos + 4) as int)
  {
  }

  /** A chunk record fails with `NegativeArraySize` exactly when both header
      words are present and the length word is negative; the exception is
      raised right after the two words. */
  lemma ChunkAtNegative(data: seq<byte>, pos: nat, nChans: nat, labels: Labels)
    requires pos <= |data|
    ensures ChunkAt(data, pos, nChans, labels).result == Err(NegativeArraySize) <==>
      pos + 8 <= |data| && Int32At(data, pos + 4) < 0
    ensures pos + 8 <= |data| && Int32At(data, pos + 4) < 0 ==>
      ChunkAt(data, pos, nChans, labels) == Run(Err(NegativeArraySize), pos + 8)
  {
  }

  /** A whole prefix with a negative channel count fails with
      `NegativeArraySize` when the label array is allocated, right after the
      prefix and before any chunk is read. */
  lemma DecodeNegative(data: seq<byte>, start: nat)
    requires start + 24 <= |data| && Int32At(data, start) < 0
    ensures DecodeRecord(data, start) == Run(Err(NegativeArraySize), start + 24)
  {
  }

  /** A chunk of any other kind leaves every label as it was and cannot
      overrun the label array. */
  lemma OtherChunkSkipped(data: seq<byte>, pos: nat, nChans: nat, labels: Labels)
    requires pos + 8 <= |data| && Int32At(data, pos) != CHUNK_CHANNEL_NAMES
    ensures var step := ChunkAt(data, pos, nChans, labels);
      step.result != Err(IndexOutOfBounds) && (step.result.Ok? ==> step.result.value.1 == labels)
  {
  }

  /** The decoded header: the prefix words at offsets 0, 4, 8, 12, 16 become
      the fields, there is one label per channel, the position ends between
      the 24-byte prefix plus the table size and the end of the buffer, and a
      record without chunk table has every label `null`. */
  lemma DecodeFacts(data: seq<byte>, start: nat)
    requires start <= |data|
    ensures var run := DecodeRecord(data, start);
      start <= run.position <= |data| &&
      (|data| - start < 24 ==> run.result == Err(BufferUnderflow)) &&
      (run.result.Ok? ==>
        var h := run.result.value;
        |data| - start >= 24 &&
        h.nChans == Int32At(data, start) && h.nSamples == Int32At(data, start + 4) &&
        h.nEvents == Int32At(data, start + 8) && h.fSample == Uint32At(data, start + 12) &&
        h.dataType == Int32At(data, start + 16) &&
        0 <= h.nChans && |h.labels| == h.nChans as int &&
        run.position >= start + 24 + Int32At(data, start + 20) as int && run.position >= start + 24 &&
        (Int32At(data, start + 20) <= 0 ==> run.position == start + 24 && h.labels == AllAbsent(h.nChans as nat)) &&
        OnlyNamesWritten(AllAbsent(h.nChans as nat), h.labels))
  {
    if |data| - start >= 24 {
      var nChans := Int32At(data, start);
      if nChans >= 0 {
        ChunksFacts(data, start + 24, Int32At(data, start + 20) as int, nChans as nat, AllAbsent(nChans as nat));
      }
    }
  }

  /** The six prefix words of an encoded record read back as written. */
  lemma EncodedPrefix(nChans: int32, nSamples: int32, nEvents: int32, fSample: uint32, dataType: int32,
                      cs: seq<Chunk>, rest: seq<byte>)
    requires WellSized(cs) && |EncodeChunks(cs)| <= MaxCapacity
    ensures var data := EncodeRecord(nChans, nSamples, nEvents, fSample, dataType, cs) + rest;
      |data| >= 24 + |EncodeChunks(cs)| && data[24..24 + |EncodeChunks(cs)|] == EncodeChunks(cs) &&
      ReadPrefixAt(data, 0) ==
        Run(Ok(Prefix(nChans, nSamples, nEvents, fSample, dataType, |EncodeChunks(cs)| as int32)), 24)
  {
    var e := EncodeChunks(cs);
    var data := EncodeRecord(nChans, nSamples, nEvents, fSample, dataType, cs) + rest;
    var t5 := Int32Bytes(|e| as int32) + e;
    var t4 := Int32Bytes(dataType) + t5;
    var t3 := Uint32Bytes(fSample) + t4;
    var t2 := Int32Bytes(nEvents) + t3;
    var t1 := Int32Bytes(nSamples) + t2;
    PrefixWindow(Int32Bytes(nChans) + t1, rest);
    ReadInt32Word(data, 0, nChans, t1);
    ReadInt32Word(data, 4, nSamples, t2);
    ReadInt32Word(data, 8, nEvents, t3);
    ReadUint32Word(data, 12, fSample, t4);
    ReadInt32Word(data, 16, dataType, t5);
    ReadInt32Word(data, 20, |e| as int32, e);
  }

  /** A window holding an encoded signed word followed by `t` reads back as
      that word, leaving a window holding `t`. */
  lemma ReadInt32Word(data: seq<byte>, pos: nat, v: int32, t: seq<byte>)
    requires pos + 4 + |t| <= |data| && data[pos..pos + 4 + |t|] == Int32Bytes(v) + t
    ensures Int32At(data, pos) == v && data[pos + 4..pos + 4 + |t|] == t
  {
    SplitWindow(data, pos, Int32Bytes(v), t);
    Int32AtBytes(data, pos, v);
  }

  /** The unsigned counterpart of `ReadInt32Word`. */
  lemma ReadUint32Word(data: seq<byte>, pos: nat, u: uint32, t: seq<byte>)
    requires pos + 4 + |t| <= |data| && data[pos..pos + 4 + |t|] == Uint32Bytes(u) + t
    ensures Uint32At(data, pos) == u && data[pos + 4..pos + 4 + |t|] == t
  {
    SplitWindow(data, pos, Uint32Bytes(u), t);
    Uint32AtBytes(data, pos, u);
  }

  /** The first record of a non-empty chunk list, and the rest after it. */
  lemma EncodeChunksCons(cs: seq<Chunk>)
    requires WellSized(cs) && cs != []
    ensures WellSized(cs[1..])
    ensures EncodeChunks(cs) ==
      Int32Bytes(cs[0].kind) + (Int32Bytes(|cs[0].payload| as int32) + (cs[0].payload + EncodeChunks(cs[1..])))
  {
    assert WellSized(cs[1..]) by {
      forall i | 0 <= i < |cs[1..]| ensures |cs[1..][i].payload| <= MaxCapacity { assert cs[1..][i] == cs[i + 1]; }
    }
  }

  /** The head of an encoded chunk list reads back as its kind, length and payload. */
  lemma EncodedChunkHead(data: seq<byte>, pos: nat, cs: seq<Chunk>)
    requires WellSized(cs) && cs != []
    requires pos + |EncodeChunks(cs)| <= |data| && data[pos..pos + |EncodeChunks(cs)|] == EncodeChunks(cs)
    ensures var len := |cs[0].payload|;
      pos + 8 + len <= |data| &&
      Int32At(data, pos) == cs[0].kind && Int32At(data, pos + 4) as int == len &&
      data[pos + 8..pos + 8 + len] == cs[0].payload &&
      WellSized(cs[1..]) &&
      data[pos + 8 + len..pos + 8 + len + |EncodeChunks(cs[1..])|] == EncodeChunks(cs[1..]) &&
      |EncodeChunks(cs)| == 8 + len + |EncodeChunks(cs[1..])|
  {
    EncodedWords(data, pos, cs);
    EncodedTail(data, pos, cs);
  }

  /** The two words of the head record of an encoded chunk list, and its payload. */
  lemma EncodedWords(data: seq<byte>, pos: nat, cs: seq<Chunk>)
    requires WellSized(cs) && cs != []
    requires pos + |EncodeChunks(cs)| <= |data| && data[pos..pos + |EncodeChunks(cs)|] == EncodeChunks(cs)
    ensures var len := |cs[0].payload|;
      pos + 8 + len <= |data| &&
      Int32At(data, pos) == cs[0].kind && Int32At(data, pos + 4) as int == len &&
      data[pos + 8..pos + 8 + len] == cs[0].payload
  {
    var c := cs[0];
    EncodeChunksCons(cs);
    var tail := EncodeChunks(cs[1..]);
    ReadInt32Word(data, pos, c.kind, Int32Bytes(|c.payload| as int32) + (c.payload + tail));
    ReadInt32Word(data, pos + 4, |c.payload| as int32, c.payload + tail);
    SplitWindow(data, pos + 8, c.payload, tail);
  }

  /** After the head record of an encoded chunk list comes the encoded rest. */
  lemma EncodedTail(data: seq<byte>, pos: nat, cs: seq<Chunk>)
    requires WellSized(cs) && cs != []
    requires pos + |EncodeChunks(cs)| <= |data| && data[pos..pos + |EncodeChunks(cs)|] == EncodeChunks(cs)
    ensures WellSized(cs[1..]) && |EncodeChunks(cs)| == 8 + |cs[0].payload| + |EncodeChunks(cs[1..])|
    ensures var next := pos + 8 + |cs[0].payload|;
      data[next..next + |EncodeChunks(cs[1..])|] == EncodeChunks(cs[1..])
  {
    var c := cs[0];
    EncodeChunksCons(cs);
    var w1, w2, tail := Int32Bytes(c.kind), Int32Bytes(|c.payload| as int32), EncodeChunks(cs[1..]);
    SplitWindow(data, pos, w1, w2 + (c.payload + tail));
    SplitWindow(data, pos + 4, w2, c.payload + tail);
    SplitWindow(data, pos + 8, c.payload, tail);
  }

  /** A window of `data` holding `x + y` holds `x`, then `y`. */
  lemma SplitWindow(data: seq<byte>, pos: nat, x: seq<byte>, y: seq<byte>)
    requires pos + |x| + |y| <= |data| && data[pos..pos + |x| + |y|] == x + y
    ensures data[pos..pos + |x|] == x && data[pos + |x|..pos + |x| + |y|] == y
  {
    assert data[pos..pos + |x|] == data[pos..pos + |x| + |y|][..|x|];
    assert data[pos + |x|..pos + |x| + |y|] == data[pos..pos + |x| + |y|][|x|..];
  }

  /** The records of `cs` lie back to back from `pos` on, each as the
      decoder reads it: kind word, length word, payload. */
  predicate RecordsAt(data: seq<byte>, pos: nat, cs: seq<Chunk>)
    decreases |cs|
  {
    cs == [] ||
    (pos + 8 + |cs[0].payload| <= |data| &&
     Int32At(data, pos) == cs[0].kind && Int32At(data, pos + 4) as int == |cs[0].payload| &&
     data[pos + 8..pos + 8 + |cs[0].payload|] == cs[0].payload &&
     RecordsAt(data, pos + 8 + |cs[0].payload|, cs[1..]))
  }

  /** The bytes the records of `cs` take up. */
  function TableSize(cs: seq<Chunk>): nat
    decreases |cs|
  {
    if cs == [] then 0 else 8 + |cs[0].payload| + TableSize(cs[1..])
  }

  /** An encoded chunk table is as long as its records. */
  lemma {:induction false} EncodedSize(cs: seq<Chunk>)
    requires WellSized(cs)
    ensures |EncodeChunks(cs)| == TableSize(cs)
    decreases |cs|
  {
    if cs != [] {
      EncodeChunksCons(cs);
      EncodedSize(cs[1..]);
    }
  }

  /** An encoded chunk table, found in `data`, holds its records back to back. */
  lemma {:induction false} EncodedRecords(data: seq<byte>, pos: nat, cs: seq<Chunk>)
    requires WellSized(cs)
    requires pos + |EncodeChunks(cs)| <= |data| && data[pos..pos + |EncodeChunks(cs)|] == EncodeChunks(cs)
    ensures RecordsAt(data, pos, cs)
    decreases |cs|
  {
    if cs != [] {
      EncodedTail(data, pos, cs);
      EncodedRecords(data, pos + 8 + |cs[0].payload|, cs[1..]);
      EncodedHeadRecord(data, pos, cs);
    }
  }

  /** The first record of an encoded table, followed by records, starts records. */
  lemma EncodedHeadRecord(data: seq<byte>, pos: nat, cs: seq<Chunk>)
    requires WellSized(cs) && cs != []
    requires pos + |EncodeChunks(cs)| <= |data| && data[pos..pos + |EncodeChunks(cs)|] == EncodeChunks(cs)
    requires RecordsAt(data, pos + 8 + |cs[0].payload|, cs[1..])
    ensures RecordsAt(data, pos, cs)
  {
    EncodedWords(data, pos, cs);
  }

  /** Records of exactly the declared table size, whose names fit, are all
      applied in order and the loop ends right after them. */
  lemma {:induction false} ChunksOfRecords(data: seq<byte>, pos: nat, cs: seq<Chunk>, nChans: nat, labels: Labels)
    requires pos + TableSize(cs) <= |data| && RecordsAt(data, pos, cs) && ChunksFit(cs, nChans)
    ensures Chunks(data, pos, TableSize(cs), nChans, labels) == Run(Ok(ApplyChunks(labels, cs)), pos + TableSize(cs))
    decreases |cs|
  {
    if cs != [] {
      var len: nat, labels' := |cs[0].payload|, ApplyChunk(cs[0].kind, cs[0].payload, labels);
      ChunksFitTail(cs, nChans);
      ChunkAtOk(data, pos, nChans, labels, cs[0].kind, cs[0].payload);
      ChunksOfRecords(data, pos + 8 + len, cs[1..], nChans, labels');
      ChunksStep(data, pos, TableSize(cs), nChans, labels, len, labels', TableSize(cs[1..]),
                 ApplyChunks(labels', cs[1..]), pos + 8 + len + TableSize(cs[1..]));
      ApplyChunksCons(labels, cs);
    }
  }

  /** Decoding an encoded chunk table of exactly the declared size applies
      every chunk in order and ends right after the table. */
  lemma ChunksOfEncoded(data: seq<byte>, pos: nat, cs: seq<Chunk>, nChans: nat, labels: Labels)
    requires WellSized(cs) && ChunksFit(cs, nChans)
    requires pos + |EncodeChunks(cs)| <= |data| && data[pos..pos + |EncodeChunks(cs)|] == EncodeChunks(cs)
    ensures Chunks(data, pos, |EncodeChunks(cs)|, nChans, labels) == Run(Ok(ApplyChunks(labels, cs)), pos + |EncodeChunks(cs)|)
  {
    EncodedSize(cs);
    EncodedRecords(data, pos, cs);
    ChunksOfRecords(data, pos, cs, nChans, labels);
  }

  /** The first chunk is applied first. */
  lemma ApplyChunksCons(labels: Labels, cs: seq<Chunk>)
    requires cs != []
    ensures ApplyChunks(labels, cs) == ApplyChunks(ApplyChunk(cs[0].kind, cs[0].payload, labels), cs[1..])
  {
  }

  /** The record at the head of an encoded chunk list decodes to its payload
      length and the labels its chunk leaves, when its names fit. */
  lemma ChunkAtEncoded(data: seq<byte>, pos: nat, cs: seq<Chunk>, nChans: nat, labels: Labels)
    requires WellSized(cs) && cs != []
    requires pos + |EncodeChunks(cs)| <= |data| && data[pos..pos + |EncodeChunks(cs)|] == EncodeChunks(cs)
    requires cs[0].kind == CHUNK_CHANNEL_NAMES ==> NamesFit(cs[0].payload, nChans)
    ensures var len: nat, tail := |cs[0].payload|, EncodeChunks(cs[1..]);
      WellSized(cs[1..]) && |EncodeChunks(cs)| == 8 + len + |tail| &&
      data[pos + 8 + len..pos + 8 + len + |tail|] == tail &&
      ChunkAt(data, pos, nChans, labels) ==
        Run(Ok((len, ApplyChunk(cs[0].kind, cs[0].payload, labels))), pos + 8 + len)
  {
    EncodedChunkHead(data, pos, cs);
    ChunkAtOk(data, pos, nChans, labels, cs[0].kind, cs[0].payload);
  }

  /** `ChunksFit` holds for the tail of a list it holds for. */
  lemma ChunksFitTail(cs: seq<Chunk>, nChans: nat)
    requires cs != [] && ChunksFit(cs, nChans)
    ensures ChunksFit(cs[1..], nChans)
    ensures cs[0].kind == CHUNK_CHANNEL_NAMES ==> NamesFit(cs[0].payload, nChans)
  {
    forall i | 0 <= i < |cs[1..]| && cs[1..][i].kind == CHUNK_CHANNEL_NAMES
      ensures NamesFit(cs[1..][i].payload, nChans)
    {
      assert cs[1..][i] == cs[i + 1];
    }
  }

  /** A sequence starts with its prefix. */
  lemma PrefixWindow(x: seq<byte>, rest: seq<byte>)
    ensures (x + rest)[0..|x|] == x
  {
  }

  /** The decoder inverts the encoder: the fields come back, the labels are
      those the name chunks spell into an all-`null` array, and the position
      ends right after the record; trailing bytes are not read. */
  lemma DecodeOfEncoded(nChans: int32, nSamples: int32, nEvents: int32, fSample: uint32, dataType: int32,
                        cs: seq<Chunk>, rest: seq<byte>)
    requires WellSized(cs) && |EncodeChunks(cs)| <= MaxCapacity
    requires nChans >= 0 && ChunksFit(cs, nChans as nat)
    ensures DecodeRecord(EncodeRecord(nChans, nSamples, nEvents, fSample, dataType, cs) + rest, 0) ==
      Run(Ok(HeaderValue(nChans, nSamples, nEvents, fSample, dataType, ApplyChunks(AllAbsent(nChans as nat), cs))),
          24 + |EncodeChunks(cs)|)
  {
    var data := EncodeRecord(nChans, nSamples, nEvents, fSample, dataType, cs) + rest;
    EncodedPrefix(nChans, nSamples, nEvents, fSample, dataType, cs, rest);
    ChunksOfEncoded(data, 24, cs, nChans as nat, AllAbsent(nChans as nat));
  }

  /** Three channels named by the payload "Fp1\0Fp2\0\0": the empty third
      entry leaves its label `null`, and the 41 bytes of the record are read. */
  lemma ThreeChannelExample(nSamples: int32, nEvents: int32, fSample: uint32, dataType: int32, rest: seq<byte>)
    ensures var payload: seq<byte> := [70, 112, 49, 0, 70, 112, 50, 0, 0];
      DecodeRecord(EncodeRecord(3, nSamples, nEvents, fSample, dataType, [Chunk(CHUNK_CHANNEL_NAMES, payload)]) + rest, 0) ==
        Run(Ok(HeaderValue(3, nSamples, nEvents, fSample, dataType, [Some([70, 112, 49]), Some([70, 112, 50]), None])), 41)
  {
    var payload: seq<byte> := [70, 112, 49, 0, 70, 112, 50, 0, 0];
    var cs := [Chunk(CHUNK_CHANNEL_NAMES, payload)];
    assert WellSized(cs) && ChunksFit(cs, 3);
    assert |EncodeChunks(cs)| == 17 by { assert cs[1..] == []; }
    DecodeOfEncoded(3, nSamples, nEvents, fSample, dataType, cs, rest);
    assert ApplyChunks(AllAbsent(3), cs) == ApplyNames(AllAbsent(3), Entries(payload)) by { assert cs[1..] == []; }
    ThreeNames();
  }

  /** The labels the payload "Fp1\0Fp2\0\0" spells into three empty slots. */
  lemma ThreeNames()
    ensures ApplyNames(AllAbsent(3), Entries([70, 112, 49, 0, 70, 112, 50, 0, 0])) ==
      [Some([70, 112, 49]), Some([70, 112, 50]), None]
  {
    var payload: seq<byte> := [70, 112, 49, 0, 70, 112, 50, 0, 0];
    var es: seq<Label> := [[70, 112, 49], [70, 112, 50], []];
    assert Join(es[..1]) == [70, 112, 49, 0] by { assert es[..1][..0] == []; }
    assert Join(es[..2]) == [70, 112, 49, 0, 70, 112, 50, 0] by { assert es[..2][..1] == es[..1]; }
    assert Join(es) + [] == payload by { assert es[..2] == es[..|es| - 1]; }
    EntriesJoin(es, []);
    var none := AllAbsent(3);
    assert ApplyNames(none, es[..1]) == [Some([70, 112, 49]), None, None] by { assert es[..1][..0] == []; }
    assert ApplyNames(none, es[..2]) == [Some([70, 112, 49]), Some([70, 112, 50]), None] by { assert es[..2][..1] == es[..1]; }
    assert es[..2] == es[..|es| - 1];
  }

  /** With no channels, a name chunk holding a non-empty terminated name
      makes the decoder fail: Java's store into the empty label array throws. */
  lemma ZeroChannelsNamedFails(nSamples: int32, nEvents: int32, fSample: uint32, dataType: int32,
                               payload: seq<byte>, rest: seq<byte>)
    requires |payload| <= 0x7fff_fff0 && !AllEmpty(Entries(payload))
    ensures var cs := [Chunk(CHUNK_CHANNEL_NAMES, payload)];
      WellSized(cs) && |EncodeChunks(cs)| <= MaxCapacity &&
      DecodeRecord(EncodeRecord(0, nSamples, nEvents, fSample, dataType, cs) + rest, 0) ==
        Run(Err(IndexOutOfBounds), 24 + 8 + |payload|)
  {
    var cs := [Chunk(CHUNK_CHANNEL_NAMES, payload)];
    assert |EncodeChunks(cs)| == 8 + |payload| by { assert cs[1..] == []; }
    var data := EncodeRecord(0, nSamples, nEvents, fSample, dataType, cs) + rest;
    EncodedPrefix(0, nSamples, nEvents, fSample, dataType, cs, rest);
    EncodedChunkHead(data, 24, cs);
    assert ChunkAt(data, 24, 0, []) == Run(Err(IndexOutOfBounds), 24 + 8 + |payload|);
    assert Chunks(data, 24, 8 + |payload|, 0, []) == Run(Err(IndexOutOfBounds), 24 + 8 + |payload|);
  }
}
