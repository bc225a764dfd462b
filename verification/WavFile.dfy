/** The sample-rate converter program around the driver: it rewrites the header of a WAVE file (RIFF,
    chapter 3 of the Multimedia Programming Interface and Data Specifications 1.0), feeds the samples to
    the driver, and writes the file. */
module WavFile {
  import opened Arithmetic
  import opened Octets
  import opened RateConvert
  import opened WavData

  datatype Played = Done | DriverError | StillWaiting | Overrun

  // How the whole program ends. The last three write or read behind a buffer.
  datatype Ending = Finished | Failed | Waiting | PastInput | PastOutput | PastWords

  class Converter {
    const header: array<Octet>
    const outputSampleRate: nat
    var sampleRate: nat
    var channel: nat
    var inputDataLen: nat
    var outputDataLen: nat
    var outputUsed: nat
    var frameBits: nat
    var blockAlign: nat

    // The sample buffer: the words allocated, a page of slack behind them apart, and those read.
    var inputWords: nat
    var input: seq<Word>
    var output: array<Octet>
    var requests: seq<Request>

    function FormatSize(): nat
      reads header
      requires header.Length == HEADER_SIZE
    {
      IntAt(header[..], 16)
    }

    // The format chunk holds all the fields and fits the header buffer.
    predicate Valid()
      reads header, this`output
    {
      header.Length == HEADER_SIZE && header != output && 16 <= FormatSize() <= 46
    }

    // The header announces n bytes of data.
    predicate Announces(n: nat)
      reads header, this`output
      requires Valid()
    {
      IntAt(header[..], 24 + FormatSize()) == Wrap32(n) && IntAt(header[..], 4) == Wrap32(n + 20 + FormatSize())
    }

    // A program whose header buffer holds the three chunk headers of a file.
    constructor (chunks: seq<Octet>, outputSampleRate: nat)
      requires |chunks| == HEADER_SIZE && 16 <= IntAt(chunks, 16) <= 46
      ensures Valid() && header[..] == chunks && this.outputSampleRate == outputSampleRate && fresh(header)
    {
      var h := new Octet[HEADER_SIZE](i requires 0 <= i < HEADER_SIZE => chunks[i]);
      header, output := h, new Octet[0];
      this.outputSampleRate := outputSampleRate;
      sampleRate, channel, inputDataLen, outputDataLen, outputUsed, frameBits, blockAlign := 0, 0, 0, 0, 0, 0, 0;
      inputWords, input, requests := 0, [], [];
      new;
      assert header[..] == chunks;
    }

    /** ---- The header ---- */

    method StoreInt(at: nat, v: nat)
      requires header.Length == HEADER_SIZE && at + 4 <= HEADER_SIZE
      modifies header
      ensures SameOutside(header[..], old(header[..]), at, at + 4) && IntAt(header[..], at) == Wrap32(v)
    {
      var w: Word := FromNat(v, 32);
      WordWraps(v);
      header[at], header[at + 1], header[at + 2], header[at + 3] := w[..8], w[8..16], w[16..24], w[24..];
      assert Word4(w[..8], w[8..16], w[16..24], w[24..]) == w;
      BytesOutside(header[..], old(header[..]), at, at + 4);
    }

    method StoreShort(at: nat, v: nat)
      requires header.Length == HEADER_SIZE && at + 2 <= HEADER_SIZE
      modifies header
      ensures SameOutside(header[..], old(header[..]), at, at + 2) && ShortAt(header[..], at) == Wrap16(v)
    {
      var h: HalfWord := FromNat(v, 16);
      WordWraps(v);
      header[at], header[at + 1] := h[..8], h[8..];
      assert Bits2(h[..8], h[8..]) == h;
      BytesOutside(header[..], old(header[..]), at, at + 2);
    }

    // The rest of the header up to the data chunk stays.
    ghost predicate Keeps(h: seq<Octet>)
      reads header
    {
      header.Length == |h| == HEADER_SIZE && 16 <= IntAt(h, 16) <= 46
      && (forall k | 8 <= k && k + 4 <= 24 + IntAt(h, 16) :: IntAt(header[..], k) == IntAt(h, k))
      && (forall k | 8 <= k && k + 2 <= 24 + IntAt(h, 16) :: ShortAt(header[..], k) == ShortAt(h, k))
    }

    method UpdateDataChunkLength(formatSize: nat, n: nat) returns (ghost fits: bool)
      requires Valid() && formatSize == FormatSize()
      modifies header
      ensures Valid() && FormatSize() == formatSize && Announces(n) && Keeps(old(header[..]))
      ensures fits == (n + 20 + formatSize < INT_END)
    {
      hide IntAt, ShortAt, Wrap32, Wrap16, ToNat;
      StoreInt(24 + formatSize, n);
      StoreInt(4, n + 20 + formatSize);
      fits := n + 20 + formatSize < INT_END;
    }

    // The fields of the header, the size of the output, and the header of the output. Here and below
    // fits tells whether every number computed fits the int that holds it.
    method ParseHeader() returns (ghost fits: bool)
      requires Valid() && 0 < IntAt(header[..], 24)
      modifies header, this`channel, this`sampleRate, this`blockAlign, this`frameBits, this`inputDataLen, this`outputDataLen
      ensures Valid() && FormatSize() == old(FormatSize())
      ensures channel == old(ShortAt(header[..], 22)) && sampleRate == old(IntAt(header[..], 24))
      ensures blockAlign == old(ShortAt(header[..], 32)) && frameBits == old(ShortAt(header[..], 34))
      ensures inputDataLen == old(IntAt(header[..], 24 + FormatSize()))
      ensures outputDataLen == OutputSize(inputDataLen, sampleRate, outputSampleRate) && Announces(outputDataLen)
      ensures IntAt(header[..], 24) == Wrap32(outputSampleRate)
      ensures IntAt(header[..], 28) == Wrap32(ByteRate(outputSampleRate, channel, frameBits))
      ensures ShortAt(header[..], 22) == channel
      ensures ShortAt(header[..], 32) == blockAlign && ShortAt(header[..], 34) == frameBits
      ensures fits == ParseFits(inputDataLen, sampleRate, channel, frameBits, FormatSize(), outputSampleRate)
    {
      hide IntAt, ShortAt, OutputSize, Wrap32, Wrap16, ByteRate, StaysInInt, ToNat;
      var formatSize := FormatSize();
      channel := ShortAt(header[..], 22);
      sampleRate := IntAt(header[..], 24);
      blockAlign := ShortAt(header[..], 32);
      frameBits := ShortAt(header[..], 34);
      inputDataLen := IntAt(header[..], 24 + formatSize);
      outputDataLen, fits := OutputBufferSize(inputDataLen, sampleRate, outputSampleRate);
      fits := fits && channel < INT_END / 0x1_0000 && sampleRate < INT_END && inputDataLen < INT_END;
      ghost var small := UpdateDataChunkLength(formatSize, outputDataLen);
      StoreInt(24, outputSampleRate);
      StoreInt(28, ByteRate(outputSampleRate, channel, frameBits));
      fits := fits && small && outputSampleRate < INT_END && outputSampleRate * channel < INT_END
              && ByteRate(outputSampleRate, channel, frameBits) < INT_END;
    }

    /** ---- The samples ---- */

    // The loop over the samples; data is what the input variable holds at first. It counts down from n
    // after each sample, so that from 0 it runs past the buffer and its slack; ok tells that it did not.
    method ReadSamples(src: seq<Octet>, junk: Word, n: nat) returns (ok: bool, words: seq<Word>)
      ensures ok == (KnownDepth(frameBits) ==> 0 < n)
      ensures ok ==> words == if KnownDepth(frameBits) then Samples(frameBits, src, junk, n) else []
    {
      hide Fetch, Placed;
      words := [];
      if frameBits > 16 && frameBits != 24 && frameBits != 32 { return true, words; }
      var nleft: int := n;
      var data := junk;
      while true
        invariant |words| <= n + 1024 && nleft == n - |words| && (n != 0 ==> 0 < nleft)
        invariant data == Fetched(frameBits, src, junk, |words|) && words == Samples(frameBits, src, junk, |words|)
        decreases n + 1024 - |words|
      {
        if |words| == n + 1024 { return false, words; }
        data := Fetch(frameBits, src, |words|, data);
        words := words + [Placed(frameBits, data)];
        nleft := nleft - 1;
        if nleft == 0 { return true, words; }
      }
    }

    // Reads the samples as 24-bit words; 16-bit samples take twice their room from here on.
    method BitShift(src: seq<Octet>, junk: Word) returns (ok: bool, ghost fits: bool)
      requires Valid() && Announces(outputDataLen)
      modifies header, this
      ensures ok == (KnownDepth(old(frameBits)) ==> SampleSize(old(frameBits)) <= old(inputDataLen))
      ensures ok ==> Valid() && FormatSize() == old(FormatSize()) && fresh(output)
      ensures ok ==> inputWords == old(inputDataLen / SampleSize(frameBits))
                     && input == if KnownDepth(old(frameBits)) then Samples(old(frameBits), src, junk, inputWords) else []
      ensures ok && old(frameBits) <= 16 ==>
                inputDataLen == 2 * old(inputDataLen) && outputDataLen == 2 * old(outputDataLen) && blockAlign == 8
                && ShortAt(header[..], 32) == 8 && IntAt(header[..], 28) == Wrap32(outputSampleRate * 8)
      ensures ok && old(frameBits) > 16 ==>
                inputDataLen == old(inputDataLen) && outputDataLen == old(outputDataLen) && blockAlign == old(blockAlign)
                && ShortAt(header[..], 32) == old(ShortAt(header[..], 32))
                && IntAt(header[..], 28) == old(IntAt(header[..], 28))
      ensures ok ==> Announces(outputDataLen) && frameBits == 24 && ShortAt(header[..], 34) == 24
                     && ShortAt(header[..], 22) == old(ShortAt(header[..], 22))
      ensures ok ==> output.Length == outputDataLen + SLACK && sampleRate == old(sampleRate) && channel == old(channel)
      ensures ok ==> fits == ShiftFits(old(inputDataLen), old(outputDataLen), old(frameBits), FormatSize(), outputSampleRate)
    {
      hide IntAt, ShortAt, Samples, Wrap32, Wrap16, ToNat;
      var formatSize := FormatSize();
      fits := true;
      inputWords := if frameBits <= 16 then inputDataLen / 2 else inputDataLen / 4;
      ok, input := ReadSamples(src, junk, inputWords);
      if !ok { return; }
      if frameBits <= 16 { fits := DoubleSizes(formatSize); }
      frameBits := 24;
      StoreShort(34, frameBits);
      output := new Octet[outputDataLen + SLACK](i => Zeros(8));
      fits := fits && outputDataLen + SLACK < INT_END;
    }

    method DoubleSizes(formatSize: nat) returns (ghost fits: bool)
      requires Valid() && formatSize == FormatSize()
      modifies header, this`inputDataLen, this`outputDataLen, this`blockAlign
      ensures Valid() && FormatSize() == formatSize && Announces(outputDataLen)
      ensures inputDataLen == 2 * old(inputDataLen) && outputDataLen == 2 * old(outputDataLen) && blockAlign == 8
      ensures ShortAt(header[..], 32) == 8 && IntAt(header[..], 28) == Wrap32(outputSampleRate * 8)
      ensures ShortAt(header[..], 22) == old(ShortAt(header[..], 22))
      ensures fits == DoubleFits(old(inputDataLen), old(outputDataLen), formatSize, outputSampleRate)
    {
      hide IntAt, ShortAt, Wrap32, Wrap16, ToNat;
      inputDataLen := 2 * inputDataLen;
      outputDataLen := 2 * outputDataLen;
      fits := UpdateDataChunkLength(formatSize, outputDataLen);
      blockAlign := 8;
      StoreShort(32, blockAlign);
      StoreInt(28, outputSampleRate * blockAlign);
      fits := fits && inputDataLen < INT_END && outputDataLen < INT_END && outputSampleRate * blockAlign < INT_END;
    }

    /** ---- Feeding the driver ---- */

    // The room a conversion call offers: the exact share of the buffer, rounded, and the tail.
    function Room(): nat
      reads this`sampleRate, this`channel
      requires 0 < sampleRate
    {
      OutputSize(BUFFER, sampleRate, outputSampleRate) + channel * 4 * 2
    }

    method OfferedRoom() returns (room: nat, ghost fits: bool)
      requires 0 < sampleRate
      ensures room == Room() && fits == StaysInInt(BUFFER, sampleRate, outputSampleRate)
    {
      var size;
      size, fits := OutputBufferSize(BUFFER, sampleRate, outputSampleRate);
      room := size + channel * 4 * 2;
    }

    // Asks for one conversion: the next chunk of samples, or silence when there are no more.
    method Ask(inputAt: nat, room: nat) returns (next: nat)
      modifies this`inputDataLen, this`requests
      ensures var n := old(inputDataLen);
              requests == old(requests) + [Request(if 0 < n then Chunk(inputAt) else Silence, outputUsed, room)]
              && inputDataLen == (if n > BUFFER then n - BUFFER else 0) && next == inputAt + n - inputDataLen
    {
      var length := if inputDataLen > BUFFER then BUFFER else inputDataLen;
      var source := Silence;
      next := inputAt;
      if inputDataLen > 0 {
        source := Chunk(inputAt);
        next := inputAt + length;
        inputDataLen := inputDataLen - length;
      }
      requests := requests + [Request(source, outputUsed, room)];
    }

    // The driver fills part of the output buffer, and what is still wanted is counted.
    method Take(data: seq<Octet>)
      requires outputUsed + |data| <= output.Length && outputUsed + outputDataLen <= output.Length
      modifies this`outputUsed, this`outputDataLen, output
      ensures outputUsed + outputDataLen == old(outputUsed + outputDataLen)
      ensures outputDataLen == if old(outputDataLen) > |data| then old(outputDataLen) - |data| else 0
      ensures output[..outputUsed] == old(output[..outputUsed]) + data[..outputUsed - old(outputUsed)]
    {
      forall k | 0 <= k < |data| {
        output[outputUsed + k] := data[k];
      }
      if outputDataLen > |data| {
        outputDataLen := outputDataLen - |data|;
        outputUsed := outputUsed + |data|;
      } else {
        outputUsed := outputUsed + outputDataLen;
        outputDataLen := 0;
      }
    }

    // One call of the driver: the request, and its reply unless it is an error or writes behind the buffer.
    method Call(inputAt: nat, room: nat, reply: Reply) returns (next: nat, r: Played)
      requires header != output && outputUsed + outputDataLen <= output.Length
      modifies this`inputDataLen, this`requests, this`outputUsed, this`outputDataLen, output
      ensures var n := old(inputDataLen);
              requests == old(requests) + [Request(if 0 < n then Chunk(inputAt) else Silence, old(outputUsed), room)]
              && inputDataLen == (if n > BUFFER then n - BUFFER else 0) && next == inputAt + n - inputDataLen
      ensures outputUsed + outputDataLen == old(outputUsed + outputDataLen)
      ensures r == DriverError <==> reply.Refused?
      ensures r == Overrun <==> reply.Converted? && old(outputUsed) + |reply.data| > output.Length
      ensures r == DriverError || r == Overrun ==> outputUsed == old(outputUsed) && output[..] == old(output[..])
      ensures r == Done || r == StillWaiting ==>
                outputDataLen == (if old(outputDataLen) > |reply.data| then old(outputDataLen) - |reply.data| else 0)
                && output[..outputUsed] == old(output[..outputUsed]) + reply.data[..outputUsed - old(outputUsed)]
                && (r == Done <==> outputDataLen == 0)
    {
      next := Ask(inputAt, room);
      if reply.Refused? { return next, DriverError; }
      if outputUsed + |reply.data| > output.Length { return next, Overrun; }
      Take(reply.data);
      r := if outputDataLen == 0 then Done else StillWaiting;
    }

    // Feeds the driver until the whole output is there. The output is what the driver delivered, in
    // order and cut off at the announced length.
    method PlayFile(replies: seq<Reply>) returns (r: Played, calls: nat, ghost fits: bool)
      requires Valid() && 0 < sampleRate && inputDataLen <= 4 * inputWords + 3
      requires output.Length == outputDataLen + SLACK
      modifies this`inputDataLen, this`outputDataLen, this`outputUsed, this`requests, output
      ensures Valid() && output.Length == old(output.Length)
      ensures outputUsed + outputDataLen == old(outputDataLen)
      ensures r == Done ==> 0 < calls <= |replies| && replies[calls - 1].Converted?
                            && Reaches(replies, old(outputDataLen), calls - 1)
                            && outputUsed == old(outputDataLen) <= |Sent(replies[..calls])|
                            && output[..outputUsed] == Sent(replies[..calls])[..outputUsed]
      ensures r != Done ==> calls <= |replies| && Reaches(replies, old(outputDataLen), calls)
                            && output[..outputUsed] == Sent(replies[..calls])
      ensures r == DriverError ==> calls < |replies| && replies[calls].Refused?
      ensures r == StillWaiting ==> calls == |replies|
      ensures r == Overrun ==> OverrunAt(replies, old(outputDataLen), calls)
      ensures forall i | 0 <= i < calls :: !OverrunAt(replies, old(outputDataLen), i)
      ensures |requests| == (if r == DriverError || r == Overrun then calls + 1 else calls)
      ensures forall i | 0 <= i < |requests| :: GoodRequest(requests[i], replies, old(inputDataLen), Room(), i)
      ensures fits == StaysInInt(BUFFER, sampleRate, outputSampleRate)
    {
      hide StaysInInt, Sent, IntAt, OutputSize, Room, GoodRequest, ToNat, Announces, Reaches;
      ghost var total, samples := outputDataLen, inputDataLen;
      var inputAt := 0;
      outputUsed := 0;
      requests := [];
      calls := 0;
      var room;
      room, fits := OfferedRoom();
      NothingSent(replies);
      ReachesFirst(replies, total);
      while true
        invariant Valid() && output.Length == total + SLACK && outputUsed + outputDataLen == total
        invariant calls == |requests| <= |replies| && Reaches(replies, total, calls)
        invariant outputUsed == |Sent(replies[..calls])| && output[..outputUsed] == Sent(replies[..calls])
        invariant forall i | 0 <= i < calls :: !OverrunAt(replies, total, i)
        invariant inputDataLen == (if 4096 * calls < samples then samples - 4096 * calls else 0)
        invariant 0 < inputDataLen ==> inputAt == 4096 * calls
        invariant forall i | 0 <= i < |requests| :: GoodRequest(requests[i], replies, samples, room, i)
        decreases |replies| - calls
      {
        if calls == |replies| { return StillWaiting, calls, fits; }
        MoreSent(replies, calls);
        inputAt, r := Call(inputAt, room, replies[calls]);
        NextRequest(requests[calls], replies, samples, room, calls);
        if r == DriverError || r == Overrun { return; }
        calls := calls + 1;
        if r == Done { return; }
        ReachesNext(replies, total, calls - 1);
      }
    }

    lemma NextRequest(q: Request, replies: seq<Reply>, samples: nat, room: nat, i: nat)
      requires i <= |replies| && samples <= 4 * inputWords + 3 && q == RequestOf(replies, samples, room, i)
      ensures GoodRequest(q, replies, samples, room, i)
    {
      hide Sent;
      if 4096 * i < samples { ChunkInside(i, samples, inputWords); }
    }

    // A request of this run that stays inside the sample buffer, its page of slack included.
    ghost predicate GoodRequest(q: Request, replies: seq<Reply>, samples: nat, room: nat, i: nat)
      reads this`inputWords
      requires i <= |replies|
    {
      q == RequestOf(replies, samples, room, i) && (q.source.Chunk? ==> q.source.at <= 4 * inputWords)
    }

    // No call of any driver writes behind the output buffer exactly if the room fits the slack; rates
    // up to 63 times the input and up to 512 channels leave that much.
    lemma RoomFits(total: nat)
      requires 0 < sampleRate
      ensures (forall replies | WithinRoom(replies, Room()) :: !Overruns(replies, total)) <==> Room() <= SLACK
      ensures outputSampleRate <= 63 * sampleRate && channel <= 512 ==> Room() <= SLACK
    {
      hide OutputSize, Overruns, WithinRoom;
      OutputSizeBounds(BUFFER, sampleRate, outputSampleRate);
      SlackIsExact(Room(), total);
      if outputSampleRate <= 63 * sampleRate {
        ShareBound(OutputSize(BUFFER, sampleRate, outputSampleRate), sampleRate, outputSampleRate);
      }
    }

    /** ---- Writing ---- */

    // The first n bytes of the header, one by one.
    method WriteHeader(n: nat) returns (file: seq<Octet>)
      requires n <= header.Length
      ensures file == header[..n]
    {
      file := [];
      for i := 0 to n
        invariant file == header[..i]
      {
        file := file + [header[i]];
      }
    }

    // The output words, 24 bits of each. It counts the size down by fours after each word; ok tells that
    // it stopped before the end of the output buffer.
    method WriteWords(start: nat) returns (ok: bool, words: seq<Octet>)
      requires start < WRAP
      ensures ok == (start % 4 == 0 && 4 * Words(start) <= output.Length)
      ensures ok ==> words == Masked(output[..], Words(start))
    {
      hide Masked;
      MaskedNothing(output[..]);
      words := [];
      var i, size := 0, start;
      while true
        invariant 0 <= i && 4 * i <= output.Length && size < WRAP && size % 4 == start % 4
        invariant if i == 0 then size == start else 0 < size
        invariant start % 4 == 0 && 0 < i ==> size + 4 * i == 4 * Words(start)
        invariant words == Masked(output[..], i)
        decreases output.Length - 4 * i
      {
        if output.Length < 4 * i + 4 { return false, words; }
        MaskedMore(output[..], i);
        words := words + [output[4 * i], output[4 * i + 1], output[4 * i + 2], Zeros(8)];
        i := i + 1;
        size := if size < 4 then size + 0x1_0000_0000 - 4 else size - 4;
        if size == 0 { return true, words; }
      }
    }

    // Writes the file: the header with the final sizes, and the words.
    method ConvertData() returns (ok: bool, file: seq<Octet>)
      requires Valid()
      modifies header
      ensures Valid() && FormatSize() == old(FormatSize()) && Announces(outputUsed) && Keeps(old(header[..]))
      ensures var size := Wrap32(outputUsed);
              ok == (size % 4 == 0 && 4 * Words(size) <= output.Length)
              && (ok ==> file == header[..FormatSize() + 28] + Masked(output[..], Words(size)))
    {
      hide IntAt, ShortAt, Masked, Wrap32, Words, ToNat;
      var formatSize := FormatSize();
      ghost var _ := UpdateDataChunkLength(formatSize, outputUsed);
      var size := IntAt(header[..], 24 + formatSize);
      file := WriteHeader(formatSize + 28);
      var words;
      ok, words := WriteWords(size);
      file := file + words;
    }

    /** ---- The whole program ---- */

    // The bytes of the output announced for the header as read: sixteen-bit samples double.
    ghost function OutputBytes(): nat
      reads header
      requires header.Length == HEADER_SIZE && FormatSize() <= 46 && 0 < IntAt(header[..], 24)
    {
      var n := OutputSize(IntAt(header[..], 24 + FormatSize()), IntAt(header[..], 24), outputSampleRate);
      if ShortAt(header[..], 34) <= 16 then 2 * n else n
    }

    // The room the header as read will offer to the driver.
    ghost function RoomAhead(): nat
      reads header
      requires header.Length == HEADER_SIZE && 0 < IntAt(header[..], 24)
    {
      OutputSize(BUFFER, IntAt(header[..], 24), outputSampleRate) + ShortAt(header[..], 22) * 4 * 2
    }

    // Every number computed for the header as read fits the int that holds it.
    ghost predicate RunInInt()
      reads header
      requires header.Length == HEADER_SIZE && FormatSize() <= 46 && 0 < IntAt(header[..], 24)
    {
      RunFits(IntAt(header[..], 24 + FormatSize()), IntAt(header[..], 24), ShortAt(header[..], 22), ShortAt(header[..], 34),
              outputSampleRate)
    }

    // The header holds at least one sample, if its depth is one of those that are read.
    ghost predicate HasSamples()
      reads header
      requires header.Length == HEADER_SIZE && FormatSize() <= 46
    {
      var bits := ShortAt(header[..], 34);
      KnownDepth(bits) ==> SampleSize(bits) <= IntAt(header[..], 24 + FormatSize())
    }

    // The header describes the samples of the input file h in the layout of the output.
    ghost predicate DescribesOutput(h: seq<Octet>)
      reads header
    {
      header.Length == |h| == HEADER_SIZE
      && ShortAt(header[..], 34) == 24 && ShortAt(header[..], 22) == ShortAt(h, 22)
      && ShortAt(header[..], 32) == NewAlign(ShortAt(h, 34), ShortAt(h, 32))
      && IntAt(header[..], 28) == NewByteRate(ShortAt(h, 34), ShortAt(h, 22), outputSampleRate)
    }

    // Everything before the driver is fed.
    method Prepare(src: seq<Octet>, junk: Word) returns (ok: bool, ghost fits: bool)
      requires Valid() && 0 < IntAt(header[..], 24)
      modifies this, header
      ensures ok == old(HasSamples())
      ensures ok ==> Valid() && FormatSize() == old(FormatSize()) && fresh(output) && DescribesOutput(old(header[..]))
      ensures ok ==> outputDataLen == old(OutputBytes()) && outputDataLen % 8 == 0
                     && output.Length == outputDataLen + SLACK
      ensures ok ==> sampleRate == old(IntAt(header[..], 24)) && channel == old(ShortAt(header[..], 22))
                     && inputDataLen <= 4 * inputWords + 3
      ensures ok ==> (fits && StaysInInt(BUFFER, sampleRate, outputSampleRate) <==> old(RunInInt()))
    {
      hide StaysInInt, ParseFits, ShiftFits, RunFits, OutputSize, IntAt, ShortAt, Samples, Announces, SampleSize,
           KnownDepth, Wrap32, Wrap16, ByteRate, ToNat, Room, Log2;
      ghost var announced := OutputBytes();
      fits := ParseHeader();
      OutputSizeBounds(inputDataLen, sampleRate, outputSampleRate);
      ghost var bits, n, out := frameBits, inputDataLen, outputDataLen;
      assert announced == if bits <= 16 then 2 * out else out;
      DoubledEights(out);
      RoomForSamples(bits, n);
      RunFitsInSteps(n, sampleRate, channel, bits, FormatSize(), outputSampleRate);
      ghost var small;
      ok, small := BitShift(src, junk);
      fits := fits && small;
    }

    lemma DoubledEights(n: nat)
      requires n % 8 == 0
      ensures 2 * n % 8 == 0
    {}

    lemma RoomForSamples(bits: nat, n: nat)
      ensures (if bits <= 16 then 2 * n else n) <= 4 * (n / SampleSize(bits)) + 3
    {}

    // The writing, once the output is complete.
    method Finish(ghost sent: seq<Octet>) returns (ok: bool, file: seq<Octet>)
      requires Valid() && outputUsed % 8 == 0 && outputUsed <= |sent| && outputUsed + SLACK == output.Length
      requires output[..outputUsed] == sent[..outputUsed] && ShortAt(header[..], 34) == 24
      modifies header
      ensures ok == (4 * Words(Wrap32(outputUsed)) <= output.Length)
      ensures ok && outputUsed + 20 + old(FormatSize()) < WRAP ==>
                0 < outputUsed && IsConversion(file, old(FormatSize()), sent, outputUsed)
                && ShortAt(file, 22) == old(ShortAt(header[..], 22)) && ShortAt(file, 32) == old(ShortAt(header[..], 32))
                && IntAt(file, 28) == old(IntAt(header[..], 28))
    {
      hide IntAt, ShortAt, Masked, IsConversion, Wrap32, Words, ToNat;
      WordsEnd(outputUsed, output.Length);
      ghost var bytes, formatSize := output[..], FormatSize();
      ok, file := ConvertData();
      if ok && outputUsed + 20 + formatSize < WRAP {
        assert outputUsed != 0;
        FileIsConversion(file, header[..], formatSize, bytes, sent, outputUsed);
        HeaderFields(header[..], formatSize + 28, Masked(bytes, outputUsed / 4));
      }
    }

    // The whole program on a file with samples in src: exactly how it ends, with calls the number of
    // conversion calls served. It runs past the sample buffer exactly if the file has not one sample; it
    // fails, waits or runs past the output buffer at the first call that makes it; and once the driver
    // has brought the bytes announced it finishes, exactly if the countdown over them ends inside the
    // output buffer. It then writes a file whose sizes agree and whose data are the driver's bytes, the
    // top byte of each word cleared; block alignment and byte rate describe that data exactly for the
    // layouts named. The numbers of the model have no bounds; fits tells whether ints hold all of them.
    method ConvertWave(src: seq<Octet>, junk: Word, replies: seq<Reply>)
      returns (r: Ending, file: seq<Octet>, ghost calls: nat, ghost fits: bool)
      requires Valid() && 0 < IntAt(header[..], 24) && WithinRoom(replies, RoomAhead())
      modifies this, header, output
      ensures r.PastInput? <==> !old(HasSamples())
      ensures calls <= |replies| && (!r.PastInput? ==> EndsAt(r, replies, old(OutputBytes()), calls))
      ensures r.PastOutput? ==> old(RoomAhead()) > SLACK
      ensures old(HasSamples()) && old(RoomAhead()) <= SLACK ==>
                0 < old(OutputBytes()) < WRAP && Brings(replies, old(OutputBytes())) ==> r.Finished?
      ensures !r.PastInput? ==> (fits <==> old(RunInInt()))
      ensures r.Finished? ==> outputUsed == old(OutputBytes()) && outputUsed % 8 == 0
      ensures r.Finished? && old(OutputBytes()) + 20 + old(FormatSize()) < WRAP ==>
                0 < outputUsed && IsConversion(file, old(FormatSize()), Sent(replies[..calls]), outputUsed)
                && (LayoutAgrees(file, outputSampleRate)
                    <==> LayoutFits(old(ShortAt(header[..], 34)), old(ShortAt(header[..], 22)), old(ShortAt(header[..], 32)),
                                    outputSampleRate))
    {
      hide StaysInInt, RunFits, OutputSize, IntAt, ShortAt, GoodRequest, Sent, IsConversion, LayoutFits, Reaches,
           OverrunAt, Brings, Words, Wrap32;
      ghost var h := header[..];
      file, calls := [], 0;
      var ok;
      ok, fits := Prepare(src, junk);
      if !ok { return PastInput, file, calls, fits; }
      ghost var total := outputDataLen;
      var played, made, small := PlayFile(replies);
      calls, fits := made, fits && small;
      match played {
        case DriverError =>
          NotBrought(replies, total, calls);
          return Failed, file, calls, fits;
        case StillWaiting =>
          NotBrought(replies, total, calls);
          return Waiting, file, calls, fits;
        case Overrun =>
          OverrunMeansRoom(replies, Room(), total, calls);
          return PastOutput, file, calls, fits;
        case Done =>
      }
      WordsEnd(total, total + SLACK);
      ok, file := Finish(Sent(replies[..calls]));
      if !ok { return PastWords, file, calls, fits; }
      LayoutIsExact(ShortAt(h, 34), ShortAt(h, 22), ShortAt(h, 32), outputSampleRate);
      r := Finished;
    }
  }

  /** ---- The bounds of an int ---- */

  // What the header routine keeps in ints: numbers it reads and numbers it computes. The channels are
  // read as a signed number of 16 bits.
  predicate ParseFits(n: nat, rate: nat, channels: nat, bits: nat, formatSize: nat, to: nat)
    requires 0 < rate
  {
    n < INT_END && rate < INT_END && to < INT_END && channels < INT_END / 0x1_0000 && StaysInInt(n, rate, to)
    && OutputSize(n, rate, to) + 20 + formatSize < INT_END && to * channels < INT_END && ByteRate(to, channels, bits) < INT_END
  }

  predicate DoubleFits(n: nat, size: nat, formatSize: nat, to: nat) {
    2 * n < INT_END && 2 * size < INT_END && 2 * size + 20 + formatSize < INT_END && to * 8 < INT_END
  }

  predicate ShiftFits(n: nat, size: nat, bits: nat, formatSize: nat, to: nat) {
    if bits <= 16 then DoubleFits(n, size, formatSize, to) && 2 * size + SLACK < INT_END else size + SLACK < INT_END
  }

  // All of them in one: the sizes with the slack, the rate of bytes, and the two size computations.
  // What the later routines add up stays below the sizes announced.
  predicate RunFits(n: nat, rate: nat, channels: nat, bits: nat, to: nat)
    requires 0 < rate
  {
    var factor := if bits <= 16 then 2 else 1;
    factor * n < INT_END && rate < INT_END && channels < INT_END / 0x1_0000
    && StaysInInt(n, rate, to) && StaysInInt(BUFFER, rate, to) && factor * OutputSize(n, rate, to) + SLACK < INT_END
    && to < INT_END && to * channels < INT_END && ByteRate(to, channels, bits) < INT_END && (bits <= 16 ==> to * 8 < INT_END)
  }

  lemma RunFitsInSteps(n: nat, rate: nat, channels: nat, bits: nat, formatSize: nat, to: nat)
    requires 0 < rate && formatSize <= 46
    ensures var size := OutputSize(n, rate, to);
            RunFits(n, rate, channels, bits, to)
            <==> ParseFits(n, rate, channels, bits, formatSize, to) && ShiftFits(n, size, bits, formatSize, to)
                 && StaysInInt(BUFFER, rate, to)
  {
    hide OutputSize, StaysInInt, ByteRate;
  }

  // Files of up to 32 MB, 8 channels and 32 bits, from at least 8 kHz to at most 192 kHz, stay in ints.
  lemma UsualFilesFit(n: nat, rate: nat, channels: nat, bits: nat, to: nat)
    requires n <= 0x200_0000 && channels <= 8 && bits <= 32 && 8000 <= rate <= 0x4000_0000 && to <= 192000
    ensures RunFits(n, rate, channels, bits, to)
  {
    hide OutputSize, StaysInInt;
    var size := OutputSize(n, rate, to);
    OutputSizeBounds(n, rate, to);
    WhenItStaysInInt(n, rate, to);
    WhenItStaysInInt(BUFFER, rate, to);
    MulAtMost(to, n, 0x200_0000);
    MulAtMost(size, 8000, rate);
    MulAtMost(to, channels, 8);
    MulAtMost(to * channels, bits / 8, 4);
  }

  // What an ending says about the replies: total bytes are announced, and calls were served.
  predicate EndsAt(r: Ending, replies: seq<Reply>, total: nat, calls: nat)
    requires calls <= |replies|
  {
    match r
    case Failed => Reaches(replies, total, calls) && calls < |replies| && replies[calls].Refused?
    case Waiting => Reaches(replies, total, calls) && calls == |replies|
    case PastOutput => Reaches(replies, total, calls) && OverrunAt(replies, total, calls)
    case PastInput => false
    case _ =>
      0 < calls && Reaches(replies, total, calls - 1) && replies[calls - 1].Converted?
      && total <= |Sent(replies[..calls])|
      && (r.Finished? <==> 4 * Words(Wrap32(total)) <= total + SLACK)
  }

  // From 8 kHz to 512 kHz a mono file is offered 262152 bytes a call, more than the slack, so that for
  // any output some driver that fills no more than it is offered writes behind the buffer.
  lemma TooLargeRatio(total: nat)
    ensures OutputSize(BUFFER, 8000, 512000) + 1 * 4 * 2 == 262152
    ensures exists replies :: WithinRoom(replies, 262152) && Overruns(replies, total)
  {
    hide DigitSum, Rest, Halvings, Overruns, WithinRoom;
    FirstRest(0, 8000);
    NoMoreDigits(BUFFER, 0, 8000, 0, Halvings(BUFFER));
    NoDigits(BUFFER, 0, 8000);
    assert 512000 / 8000 == 64;
    var replies := TooMuch(262152, total);
  }

  // A file of one 16-bit sample has no output at an unchanged rate, and no run on it finishes.
  lemma OneSampleNeverFinishes(replies: seq<Reply>, calls: nat)
    requires calls <= |replies|
    ensures 2 * OutputSize(2, 8000, 8000) == 0 && !EndsAt(Finished, replies, 0, calls)
  {
    hide Reaches, Sent;
    NoDigits(2, 0, 8000);
    assert Halvings(2) == 0;
  }

  // A chunk that starts inside the samples starts inside their whole words.
  lemma ChunkInside(i: nat, samples: nat, words: nat)
    requires 4096 * i < samples <= 4 * words + 3
    ensures 4096 * i <= 4 * words
  {
    assert 1024 * i <= words;
  }

  lemma ShareBound(size: nat, input: nat, output: nat)
    requires size * input <= 4096 * output && 0 < input && output <= 63 * input
    ensures size <= 258048
  {
    MulAtMost(BUFFER, output, 63 * input);
    Cancel(input, 258048, size);
  }

  lemma OverrunMeansRoom(replies: seq<Reply>, room: nat, total: nat, n: nat)
    requires n <= |replies| && WithinRoom(replies, room) && Reaches(replies, total, n) && OverrunAt(replies, total, n)
    ensures room > SLACK
  {
    if room <= SLACK { EnoughSlack(replies, room, total); }
  }
}
