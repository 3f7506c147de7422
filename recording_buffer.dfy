/** The circular audio buffer of `MainActivity`: `record()` copies each chunk read from the
    microphone into `recordingBuffer` at `recordingOffset`, in two pieces when it wraps, and
    `recognize()` copies the ring out oldest-sample-first into a linear buffer for the model.
    The lock around both is left out; the accesses are taken one after another. */
module Recording {
  import opened KotlinTypes

  const SAMPLE_RATE: int := 16000
  const SAMPLE_DURATION_MS: int := 2000
  /** Samples in the ring and in each chunk: two seconds at 16 kHz. */
  const RECORDING_LENGTH: int := SAMPLE_RATE * SAMPLE_DURATION_MS / 1000

  function Zeros(n: nat): (z: seq<Short>)
    ensures |z| == n && forall i :: 0 <= i < n ==> z[i] == 0
  {
    seq(n, _ => 0)
  }

  /** `x % m` for `0 <= x < 2m`: no wrap below `m`, one wrap above. */
  lemma ModOnce(x: int, m: int)
    requires 0 < m && 0 <= x < 2 * m
    ensures x % m == if x < m then x else x - m
  {
    if x < m {
      assert x == m * 0 + x;
    } else {
      assert x == m * 1 + (x - m);
    }
  }

  // ---------------------------------------------------------------------------------------
  // Writing a chunk

  /** The copy lengths of `record()`: `secondCopyLength = 0.coerceAtLeast(offset + n - max)`
      is what spills past the end, `firstCopyLength` the rest. Both are non-negative and add
      up to `n`; the first piece fits before the end and the second before the offset. */
  function CopyLengths(recordingOffset: int, numberRead: int, maxLength: int): (lengths: (int, int))
    requires 0 <= recordingOffset < maxLength && 0 <= numberRead <= maxLength
    ensures lengths.0 >= 0 && lengths.1 >= 0 && lengths.0 + lengths.1 == numberRead
    ensures recordingOffset + lengths.0 <= maxLength && lengths.1 <= recordingOffset
    ensures lengths.1 > 0 <==> recordingOffset + numberRead > maxLength
    ensures lengths.1 == 0 ==> lengths.0 == numberRead
    ensures lengths.1 > 0 ==> lengths.0 == maxLength - recordingOffset
  {
    var newRecordingOffset := recordingOffset + numberRead;
    var secondCopyLength := if newRecordingOffset - maxLength > 0 then newRecordingOffset - maxLength else 0;
    (numberRead - secondCopyLength, secondCopyLength)
  }

  /** Position `j` of a ring of size `cap` is covered by a write of `n` samples at `offset`. */
  predicate Touched(offset: int, n: int, cap: int, j: int) {
    (offset <= j < offset + n) || j < offset + n - cap
  }

  /** The ring after the two `System.arraycopy` calls of `record()`: the first piece of the
      chunk at the offset, the rest from position 0. */
  function Overwritten(ring: seq<Short>, offset: int, chunk: seq<Short>): (r: seq<Short>)
    requires 0 <= offset < |ring| && |chunk| <= |ring|
    ensures |r| == |ring|
  {
    var (first, second) := CopyLengths(offset, |chunk|, |ring|);
    var afterFirst := ring[..offset] + chunk[..first] + ring[offset + first..];
    chunk[first..] + afterFirst[second..]
  }

  /** Sample `k` of the chunk lands at `(offset + k) % cap`, and every position the copies
      do not touch keeps its value. */
  lemma OverwrittenPlacesChunk(ring: seq<Short>, offset: int, chunk: seq<Short>)
    requires 0 <= offset < |ring| && |chunk| <= |ring|
    ensures forall k :: 0 <= k < |chunk| ==> Overwritten(ring, offset, chunk)[(offset + k) % |ring|] == chunk[k]
    ensures forall j :: 0 <= j < |ring| && !Touched(offset, |chunk|, |ring|, j) ==>
              Overwritten(ring, offset, chunk)[j] == ring[j]
  {
    var r := Overwritten(ring, offset, chunk);
    forall k | 0 <= k < |chunk| ensures r[(offset + k) % |ring|] == chunk[k] {
      ModOnce(offset + k, |ring|);
    }
  }

  // ---------------------------------------------------------------------------------------
  // Reading the ring out

  /** The linearising copy of `recognize()`: `[offset, cap)` first, then `[0, offset)`. */
  function Rotate(ring: seq<Short>, offset: int): (linear: seq<Short>)
    requires 0 <= offset < |ring|
    ensures |linear| == |ring|
  {
    ring[offset..] + ring[..offset]
  }

  /** Position `i` of the linear copy is ring position `(offset + i) % cap`. */
  lemma RotateIndex(ring: seq<Short>, offset: int)
    requires 0 <= offset < |ring|
    ensures forall i :: 0 <= i < |ring| ==> Rotate(ring, offset)[i] == ring[(offset + i) % |ring|]
  {
    forall i | 0 <= i < |ring| ensures Rotate(ring, offset)[i] == ring[(offset + i) % |ring|] {
      ModOnce(offset + i, |ring|);
    }
  }

  /** The last `cap` samples of everything written, with the zeros the ring starts with in
      front. */
  function Window(written: seq<Short>, cap: nat): (w: seq<Short>)
    ensures |w| == cap
  {
    (Zeros(cap) + written)[|written|..]
  }

  /** The window holds the most recent `min(|written|, cap)` samples in the order they were
      written, and zeros before them while fewer than `cap` have been written. */
  lemma WindowHoldsLatest(written: seq<Short>, cap: nat)
    ensures |written| >= cap ==> Window(written, cap) == written[|written| - cap..]
    ensures |written| < cap ==> Window(written, cap)[cap - |written|..] == written
    ensures forall i :: 0 <= i < cap - |written| ==> Window(written, cap)[i] == 0
  {
    var w := Window(written, cap);
    if |written| >= cap {
      assert forall i :: 0 <= i < cap ==> w[i] == written[|written| - cap + i];
    } else {
      assert forall i :: 0 <= i < |written| ==> w[cap - |written| + i] == written[i];
    }
  }

  /** Appending a chunk of at most `cap` samples shifts the window left by its length. */
  lemma WindowAppend(written: seq<Short>, chunk: seq<Short>, cap: nat)
    requires |chunk| <= cap
    ensures Window(written + chunk, cap) == (Window(written, cap) + chunk)[|chunk|..]
  {
    var w := Window(written, cap);
    var lhs := Window(written + chunk, cap);
    var rhs := (w + chunk)[|chunk|..];
    forall i | 0 <= i < cap ensures lhs[i] == rhs[i] {
      assert (Zeros(cap) + (written + chunk)) == (Zeros(cap) + written) + chunk;
    }
  }

  /** A write seen through the rotation: the oldest `|chunk|` samples leave the front of
      the linear view and the chunk arrives at its end. */
  lemma RotateAfterWrite(ring: seq<Short>, offset: int, chunk: seq<Short>)
    requires 0 <= offset < |ring| && |chunk| <= |ring|
    ensures Rotate(Overwritten(ring, offset, chunk), (offset + |chunk|) % |ring|)
         == (Rotate(ring, offset) + chunk)[|chunk|..]
  {
    var cap, n := |ring|, |chunk|;
    ModOnce(offset + n, cap);
    if offset + n <= cap {
      RotateAfterWriteInside(ring, offset, chunk);
    } else {
      RotateAfterWriteWrapping(ring, offset, chunk);
    }
  }

  /** A chunk that fits before the end of the ring is copied in one piece. */
  lemma RotateAfterWriteInside(ring: seq<Short>, offset: int, chunk: seq<Short>)
    requires 0 <= offset < |ring| && offset + |chunk| <= |ring|
    ensures Rotate(Overwritten(ring, offset, chunk), if offset + |chunk| < |ring| then offset + |chunk| else 0)
         == (Rotate(ring, offset) + chunk)[|chunk|..]
  {
    var n := |chunk|;
    var r := Overwritten(ring, offset, chunk);
    assert r == ring[..offset] + chunk + ring[offset + n..];
    if offset + n < |ring| {
      assert r[offset + n..] == ring[offset + n..];
      assert r[..offset + n] == ring[..offset] + chunk;
    }
    assert (Rotate(ring, offset) + chunk)[n..] == ring[offset + n..] + ring[..offset] + chunk;
  }

  /** A chunk that runs past the end of the ring is copied in two pieces. */
  lemma RotateAfterWriteWrapping(ring: seq<Short>, offset: int, chunk: seq<Short>)
    requires 0 <= offset < |ring| && |chunk| <= |ring| && offset + |chunk| > |ring|
    ensures Rotate(Overwritten(ring, offset, chunk), offset + |chunk| - |ring|)
         == (Rotate(ring, offset) + chunk)[|chunk|..]
  {
    var (first, second) := CopyLengths(offset, |chunk|, |ring|);
    var r := Overwritten(ring, offset, chunk);
    assert chunk == chunk[..first] + chunk[first..];
    assert r == chunk[first..] + ring[second..offset] + chunk[..first];
    assert r[second..] == ring[second..offset] + chunk[..first];
    assert r[..second] == chunk[first..];
    assert (Rotate(ring, offset) + chunk)[|chunk|..] == ring[second..offset] + chunk;
  }

  /** A write keeps the linear view equal to the zero-padded last `cap` samples written. */
  lemma WriteKeepsWindow(ring: seq<Short>, offset: int, chunk: seq<Short>, written: seq<Short>,
                         after: seq<Short>, newOffset: int)
    requires 0 <= offset < |ring| && |chunk| <= |ring|
    requires Rotate(ring, offset) == Window(written, |ring|)
    requires after == Overwritten(ring, offset, chunk) && newOffset == (offset + |chunk|) % |ring|
    ensures Rotate(after, newOffset) == Window(written + chunk, |ring|)
  {
    RotateAfterWrite(ring, offset, chunk);
    WindowAppend(written, chunk, |ring|);
  }

  /** The two `System.arraycopy` calls of `record()`, as the sequences they leave, make up
      `Overwritten`. */
  lemma CopiesOverwrite(ring: seq<Short>, offset: int, audio: seq<Short>, n: int, first: int, second: int,
                        afterFirst: seq<Short>, afterSecond: seq<Short>)
    requires 0 <= offset < |ring| && |audio| == |ring| && 0 <= n <= |audio|
    requires (first, second) == CopyLengths(offset, n, |ring|)
    requires afterFirst == ring[..offset] + audio[0..first] + ring[offset + first..]
    requires afterSecond == afterFirst[..0] + audio[first..first + second] + afterFirst[second..]
    ensures afterSecond == Overwritten(ring, offset, audio[..n])
  {
    var chunk := audio[..n];
    assert audio[0..first] == chunk[..first];
    assert audio[first..first + second] == chunk[first..];
  }

  /** The two `System.arraycopy` calls of `recognize()`, as the sequences they leave, make
      up `Rotate`. */
  lemma CopiesRotate(ring: seq<Short>, offset: int, initial: seq<Short>,
                     afterFirst: seq<Short>, afterSecond: seq<Short>)
    requires 0 <= offset < |ring| && |initial| == |ring|
    requires afterFirst == initial[..0] + ring[offset..offset + (|ring| - offset)] + initial[|ring| - offset..]
    requires afterSecond == afterFirst[..|ring| - offset] + ring[0..offset] + afterFirst[|ring| - offset + offset..]
    ensures afterSecond == Rotate(ring, offset)
  {
    assert afterFirst[..|ring| - offset] == ring[offset..];
  }

  /** `System.arraycopy` between two different arrays. */
  method ArrayCopy(src: array<Short>, srcPos: int, dest: array<Short>, destPos: int, length: int)
    requires src != dest
    requires 0 <= srcPos && 0 <= destPos && 0 <= length
    requires srcPos + length <= src.Length && destPos + length <= dest.Length
    modifies dest
    ensures dest[..] == old(dest[..destPos]) + src[srcPos..srcPos + length] + old(dest[destPos + length..])
  {
    var i := 0;
    while i < length
      invariant 0 <= i <= length
      invariant forall j :: 0 <= j < destPos ==> dest[j] == old(dest[j])
      invariant forall j :: destPos <= j < destPos + i ==> dest[j] == src[srcPos + (j - destPos)]
      invariant forall j :: destPos + i <= j < dest.Length ==> dest[j] == old(dest[j])
    {
      dest[destPos + i] := src[srcPos + i];
      i := i + 1;
    }
  }

  class RecordingBuffer {
    const recordingBuffer: array<Short>
    var recordingOffset: int
    /** Every sample written so far, oldest first. */
    ghost var written: seq<Short>

    ghost predicate Valid()
      reads this, recordingBuffer
    {
      && 0 <= recordingOffset < recordingBuffer.Length
      && Rotate(recordingBuffer[..], recordingOffset) == Window(written, recordingBuffer.Length)
    }

    /** `ShortArray(RECORDING_LENGTH)` is zero-filled and the offset starts at 0. */
    constructor ()
      ensures Valid() && fresh(recordingBuffer)
      ensures recordingBuffer.Length == RECORDING_LENGTH == 32000
      ensures recordingOffset == 0 && written == []
      ensures recordingBuffer[..] == Zeros(RECORDING_LENGTH)
    {
      recordingBuffer := new Short[RECORDING_LENGTH](_ => 0);
      recordingOffset := 0;
      written := [];
      new;
      assert recordingBuffer[..] == Zeros(RECORDING_LENGTH);
      assert recordingBuffer[0..] + recordingBuffer[..0] == recordingBuffer[..];
    }

    /** One pass of the loop in `record()` after `audioRecord.read` returned `numberRead`:
        the chunk goes into the ring at the offset, wrapping at the end, and the offset moves
        on by `numberRead` modulo the capacity. */
    method Write(audioBuffer: array<Short>, numberRead: int)
      requires Valid() && audioBuffer != recordingBuffer
      requires audioBuffer.Length == recordingBuffer.Length && 0 <= numberRead <= audioBuffer.Length
      modifies this, recordingBuffer
      ensures Valid()
      ensures written == old(written) + audioBuffer[..numberRead]
      ensures recordingOffset == (old(recordingOffset) + numberRead) % recordingBuffer.Length
      ensures recordingBuffer[..] == Overwritten(old(recordingBuffer[..]), old(recordingOffset), audioBuffer[..numberRead])
    {
      ghost var ring := recordingBuffer[..];
      ghost var chunk := audioBuffer[..numberRead];
      var maxLength := recordingBuffer.Length;
      var newRecordingOffset := recordingOffset + numberRead;
      CopyChunk(audioBuffer, numberRead);
      ghost var oldOffset := recordingOffset;
      ModOnce(newRecordingOffset, maxLength);
      recordingOffset := newRecordingOffset % maxLength;
      WriteKeepsWindow(ring, oldOffset, chunk, written, recordingBuffer[..], recordingOffset);
      written := written + chunk;
    }

    /** The two `System.arraycopy` calls of `record()`: as much of the chunk as fits before
        the end goes in at the offset, the rest at the start of the ring. */
    method CopyChunk(audioBuffer: array<Short>, numberRead: int)
      requires audioBuffer != recordingBuffer && 0 <= recordingOffset < recordingBuffer.Length
      requires audioBuffer.Length == recordingBuffer.Length && 0 <= numberRead <= audioBuffer.Length
      modifies recordingBuffer
      ensures recordingBuffer[..] == Overwritten(old(recordingBuffer[..]), recordingOffset, audioBuffer[..numberRead])
    {
      ghost var ring := recordingBuffer[..];
      var maxLength := recordingBuffer.Length;
      var newRecordingOffset := recordingOffset + numberRead;
      var secondCopyLength := if newRecordingOffset - maxLength > 0 then newRecordingOffset - maxLength else 0;
      var firstCopyLength := numberRead - secondCopyLength;
      assert (firstCopyLength, secondCopyLength) == CopyLengths(recordingOffset, numberRead, maxLength);
      ArrayCopy(audioBuffer, 0, recordingBuffer, recordingOffset, firstCopyLength);
      ghost var afterFirst := recordingBuffer[..];
      ArrayCopy(audioBuffer, firstCopyLength, recordingBuffer, 0, secondCopyLength);
      CopiesOverwrite(ring, recordingOffset, audioBuffer[..], numberRead, firstCopyLength, secondCopyLength,
                      afterFirst, recordingBuffer[..]);
    }

    /** The copy under the lock in `recognize()`: the ring, oldest sample first, which is the
        last `RECORDING_LENGTH` samples written, zero-padded in front before the first wrap.
        The ring and the offset are left as they were. */
    method Snapshot(inputBuffer: array<Short>)
      requires Valid() && inputBuffer != recordingBuffer && inputBuffer.Length == recordingBuffer.Length
      modifies inputBuffer
      ensures inputBuffer[..] == Rotate(recordingBuffer[..], recordingOffset)
      ensures inputBuffer[..] == Window(written, recordingBuffer.Length)
    {
      var maxLength := recordingBuffer.Length;
      var firstCopyLength := maxLength - recordingOffset;
      var secondCopyLength := recordingOffset;
      ghost var initial := inputBuffer[..];
      ArrayCopy(recordingBuffer, recordingOffset, inputBuffer, 0, firstCopyLength);
      ghost var afterFirst := inputBuffer[..];
      ArrayCopy(recordingBuffer, 0, inputBuffer, firstCopyLength, secondCopyLength);
      CopiesRotate(recordingBuffer[..], recordingOffset, initial, afterFirst, inputBuffer[..]);
    }
  }
}
