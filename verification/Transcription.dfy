/** The resumable transcription loop of backend/internal/contentimport/worker.go: each chunk of an
    audio file is transcribed once and kept as an artifact, and a later attempt reuses what is kept. */
module Transcription {
  import opened Wrappers
  import opened Text
  import opened Jcs
  import opened JsonParse
  import opened Bignum

  type bytes = seq<nat>

  datatype Artifact = Artifact(text: text, sha256: bytes)

  type Cache = map<text, Artifact>

  /** A chunk as `Split` returns it; the offset is in nanoseconds. */
  datatype Chunk = Chunk(audio: bytes, offset: nat)

  /** The hash of a chunk, the transcriber and `transcript.Normalize`. The transcriber is deterministic;
      `None` is its error, and that of a transcript without text. */
  datatype Engine = Engine(hash: bytes -> bytes, transcribe: bytes -> Option<text>, normalize: text -> Option<text>)

  /** Different audio has different hashes, and a normalised transcript has text. */
  ghost predicate Sound(e: Engine) {
    && (forall a, b :: e.hash(a) == e.hash(b) ==> a == b)
    && (forall t :: e.normalize(t).Some? ==> e.normalize(t).value != [])
  }

  /** What may go wrong around one chunk in one attempt, apart from the transcription itself. */
  datatype Fault = NoFault | LoadFails | OpenFails | TranscriberFails | StoreFails | ProgressFails

  datatype Attempt = Attempt(chunks: seq<Chunk>, fault: nat -> Fault)

  // ---------------------------------------------------------------- names and offsets

  function Zeros(n: nat): text {
    seq(n, i => ZERO)
  }

  /** `%04d` and `%02d`: at least `width` digits. */
  function Padded(n: nat, width: nat): text {
    var d := Digits(n);
    if |d| < width then Zeros(width - |d|) + d else d
  }

  const KIND_PREFIX: text := Ascii("transcript_chunk_")

  function KindOf(index: nat): text {
    KIND_PREFIX + Padded(index, 4)
  }

  lemma {:induction false} ZerosValue(n: nat, d: text)
    requires AllDigits(d)
    ensures AllDigits(Zeros(n) + d) && DigitsValue(Zeros(n) + d) == DigitsValue(d)
  {
    if n == 0 {
      assert Zeros(0) + d == d;
    } else {
      ZerosValue(n - 1, d);
      var t := Zeros(n) + d;
      assert t[1..] == Zeros(n - 1) + d && t[0] == ZERO;
      assert forall i :: 0 < i < |t| ==> t[i] == t[1..][i - 1];
      LeadingZero(t);
    }
  }

  /** The artifacts of different chunks have different names. */
  lemma KindInjective(i: nat, j: nat)
    requires KindOf(i) == KindOf(j)
    ensures i == j
  {
    assert KindOf(i)[|KIND_PREFIX|..] == Padded(i, 4) && KindOf(j)[|KIND_PREFIX|..] == Padded(j, 4);
    PaddedValue(i, 4);
    PaddedValue(j, 4);
  }

  /** The name of an artifact: the prefix, and the number of the chunk in at least four digits. */
  lemma KindSays(i: nat)
    ensures var prefix := Ascii("transcript_chunk_"); var digits := KindOf(i)[|prefix|..];
      && KindOf(i) == prefix + digits && |digits| >= 4 && AllDigits(digits) && DigitsValue(digits) == i
  {
    hide Digits, DigitsValue;
    PaddedValue(i, 4);
    assert KindOf(i)[|KIND_PREFIX|..] == Padded(i, 4);
  }

  lemma PaddedValue(n: nat, width: nat)
    ensures AllDigits(Padded(n, width)) && DigitsValue(Padded(n, width)) == n
  {
    hide DigitsValue, Digits;
    DigitsShape(n);
    var d := Digits(n);
    if |d| < width {
      ZerosValue(width - |d|, d);
    }
  }

  /** `formatOffset` */
  function FormatOffset(offset: nat): text {
    var total: nat := offset / 1_000_000_000;
    Padded(total / 3600, 2) + [COLON_MARK] + Padded(total % 3600 / 60, 2) + [COLON_MARK] + Padded(total % 60, 2)
  }

  const COLON_MARK: unit := 58

  /** `fmt.Sprintf("[%s]\n%s", ...)` */
  function Segment(offset: nat, t: text): text {
    [91] + FormatOffset(offset) + [93, 10] + t
  }

  /** `strings.Join(segments, "\n\n")` */
  function JoinSegments(segments: seq<text>): text {
    if |segments| == 0 then []
    else if |segments| == 1 then segments[0]
    else segments[0] + [10, 10] + JoinSegments(segments[1..])
  }

  // ---------------------------------------------------------------- one chunk

  /** The normalised transcript of some audio. */
  function Speech(e: Engine, audio: bytes): Option<text> {
    match e.transcribe(audio)
    case None => None
    case Some(t) => e.normalize(t)
  }

  /** The artifact of the chunk has text and was made from the same audio. */
  predicate Hit(cache: Cache, e: Engine, chunk: Chunk, index: nat) {
    KindOf(index) in cache && cache[KindOf(index)].text != [] && cache[KindOf(index)].sha256 == e.hash(chunk.audio)
  }

  /** The chunk's text, and the cache behind it; `None` stops the attempt. */
  function ChunkText(cache: Cache, e: Engine, chunk: Chunk, index: nat, fault: Fault): (Cache, Option<text>) {
    if fault == LoadFails then (cache, None)
    else if Hit(cache, e, chunk, index) then (cache, Some(cache[KindOf(index)].text))
    else if fault == OpenFails || fault == TranscriberFails || Speech(e, chunk.audio).None? || fault == StoreFails then
      (cache, None)
    else
      var t := Speech(e, chunk.audio).value;
      (cache[KindOf(index) := Artifact(t, e.hash(chunk.audio))], Some(t))
  }

  /** The progress recorded after a chunk. */
  function Progress(index: nat, count: nat): int
    requires count > 0
  {
    42 + (index + 1) * 23 / count
  }

  // ---------------------------------------------------------------- one attempt

  /** The cache an attempt leaves, its segments if it got to the end, and the progress it reported. */
  datatype Result = Result(cache: Cache, segments: Option<seq<text>>, progress: seq<int>)

  function AttemptFrom(cache: Cache, e: Engine, a: Attempt, index: nat): (r: Result)
    requires index <= |a.chunks|
    decreases |a.chunks| - index
  {
    if index == |a.chunks| then Result(cache, Some([]), [])
    else
      var chunk := a.chunks[index];
      var (next, t) := ChunkText(cache, e, chunk, index, a.fault(index));
      if t.None? || a.fault(index) == ProgressFails then Result(next, None, [])
      else
        var rest := AttemptFrom(next, e, a, index + 1);
        Result(rest.cache,
               if rest.segments.Some? then Some([Segment(chunk.offset, t.value)] + rest.segments.value) else None,
               [Progress(index, |a.chunks|)] + rest.progress)
  }

  function RunAttempt(cache: Cache, e: Engine, a: Attempt): Result {
    if |a.chunks| == 0 then Result(cache, None, []) else AttemptFrom(cache, e, a, 0)
  }

  /** The transcript of an attempt that got to the end. */
  function Transcript(r: Result): Option<text> {
    if r.segments.Some? then Some(JoinSegments(r.segments.value)) else None
  }

  // ---------------------------------------------------------------- the worker

  class Worker {
    var cache: Cache
    var progress: seq<int>

    constructor (cache: Cache)
      ensures this.cache == cache && progress == []
    {
      this.cache := cache;
      progress := [];
    }

    /** One turn of the loop: the kept text, or a new one that is kept. */
    method ChunkTextOf(e: Engine, chunk: Chunk, index: nat, fault: Fault) returns (chunkText: Option<text>)
      modifies this`cache
      ensures (cache, chunkText) == ChunkText(old(cache), e, chunk, index, fault)
    {
      hide KindOf;
      var kind := KindOf(index);
      if fault == LoadFails {
        return None;
      }
      if kind in cache && cache[kind].text != [] && cache[kind].sha256 == e.hash(chunk.audio) {
        return Some(cache[kind].text);
      }
      if fault == OpenFails || fault == TranscriberFails {
        return None;
      }
      var spoken := e.transcribe(chunk.audio);
      if spoken.None? {
        return None;
      }
      var normalized := e.normalize(spoken.value);
      if normalized.None? || fault == StoreFails {
        return None;
      }
      cache := cache[kind := Artifact(normalized.value, e.hash(chunk.audio))];
      return normalized;
    }

    /** The chunk loop of `transcribePublicAudio`. */
    method TranscribePublicAudio(e: Engine, a: Attempt) returns (transcript: Option<text>)
      modifies this
      ensures var r := RunAttempt(old(cache), e, a);
        transcript == Transcript(r) && cache == r.cache && progress == old(progress) + r.progress
    {
      hide ChunkText, AttemptFrom, Continues, Segment, Progress, JoinSegments;
      if |a.chunks| == 0 {
        return None;
      }
      ghost var goal := RunAttempt(cache, e, a);
      ghost var before, reported: seq<int> := progress, [];
      var segments: seq<text> := [];
      var index := 0;
      ContinuesAtStart(goal);
      while index < |a.chunks|
        invariant index <= |a.chunks| && progress == before + reported
        invariant Continues(goal, segments, reported, AttemptFrom(cache, e, a, index))
      {
        AttemptStep(cache, e, a, index);
        var chunkText := ChunkTextOf(e, a.chunks[index], index, a.fault(index));
        if chunkText.None? || a.fault(index) == ProgressFails {
          ContinuesAtStop(goal, segments, reported, cache);
          return None;
        }
        var segment, percent := Segment(a.chunks[index].offset, chunkText.value), Progress(index, |a.chunks|);
        ContinuesStep(goal, segments, reported, segment, percent, AttemptFrom(cache, e, a, index + 1));
        segments := segments + [segment];
        progress := progress + [percent];
        reported := reported + [percent];
        index := index + 1;
      }
      AttemptStep(cache, e, a, index);
      ContinuesAtEnd(goal, segments, reported, cache);
      return Some(JoinSegments(segments));
    }
  }

  function Extended(t: text, percent: int, rest: Result): Result {
    Result(rest.cache, if rest.segments.Some? then Some([t] + rest.segments.value) else None, [percent] + rest.progress)
  }

  lemma AttemptStep(cache: Cache, e: Engine, a: Attempt, index: nat)
    requires index <= |a.chunks|
    ensures AttemptFrom(cache, e, a, index) ==
      if index == |a.chunks| then Result(cache, Some([]), [])
      else
        var (next, t) := ChunkText(cache, e, a.chunks[index], index, a.fault(index));
        if t.None? || a.fault(index) == ProgressFails then Result(next, None, [])
        else
          var rest := AttemptFrom(next, e, a, index + 1);
          Extended(Segment(a.chunks[index].offset, t.value), Progress(index, |a.chunks|), rest)
  {
    hide ChunkText, Segment, Progress;
  }

  lemma ContinuesAtStart(goal: Result)
    ensures Continues(goal, [], [], goal)
  {
    assert [] + goal.progress == goal.progress;
    if goal.segments.Some? {
      assert [] + goal.segments.value == goal.segments.value;
    }
  }

  lemma ContinuesStep(goal: Result, segments: seq<text>, reported: seq<int>, t: text, percent: int, rest: Result)
    requires Continues(goal, segments, reported, Extended(t, percent, rest))
    ensures Continues(goal, segments + [t], reported + [percent], rest)
  {
    assert reported + ([percent] + rest.progress) == (reported + [percent]) + rest.progress;
    if rest.segments.Some? {
      assert segments + ([t] + rest.segments.value) == (segments + [t]) + rest.segments.value;
    }
  }

  lemma ContinuesAtStop(goal: Result, segments: seq<text>, reported: seq<int>, cache: Cache)
    requires Continues(goal, segments, reported, Result(cache, None, []))
    ensures goal == Result(cache, None, reported)
  {
    assert reported + [] == reported;
  }

  lemma ContinuesAtEnd(goal: Result, segments: seq<text>, reported: seq<int>, cache: Cache)
    requires Continues(goal, segments, reported, Result(cache, Some([]), []))
    ensures goal == Result(cache, Some(segments), reported)
  {
    assert reported + [] == reported && segments + [] == segments;
  }

  /** The goal is what was collected so far, followed by the rest. */
  ghost predicate Continues(goal: Result, segments: seq<text>, reported: seq<int>, rest: Result) {
    && goal.cache == rest.cache && goal.progress == reported + rest.progress
    && goal.segments == if rest.segments.Some? then Some(segments + rest.segments.value) else None
  }

  // ---------------------------------------------------------------- the cache never changes a transcript

  /** A kept text is the transcript of the audio with its hash. */
  ghost predicate Faithful(cache: Cache, e: Engine) {
    forall i: nat, audio: bytes ::
      KindOf(i) in cache && cache[KindOf(i)].text != [] && cache[KindOf(i)].sha256 == e.hash(audio) ==>
        Speech(e, audio) == Some(cache[KindOf(i)].text)
  }

  lemma ChunkFaithful(cache: Cache, e: Engine, chunk: Chunk, index: nat, fault: Fault)
    requires Sound(e) && Faithful(cache, e)
    ensures var (next, t) := ChunkText(cache, e, chunk, index, fault);
      Faithful(next, e) && (t.Some? ==> t == Speech(e, chunk.audio))
      && (fault == NoFault ==> t == Speech(e, chunk.audio))
      && (t.Some? ==> Hit(next, e, chunk, index))
  {
    var (next, t) := ChunkText(cache, e, chunk, index, fault);
    forall i: nat, audio: bytes
      | KindOf(i) in next && next[KindOf(i)].text != [] && next[KindOf(i)].sha256 == e.hash(audio)
      ensures Speech(e, audio) == Some(next[KindOf(i)].text)
    {
    }
  }

  /** The segments without a cache, from the audio alone. */
  function SpokenFrom(e: Engine, chunks: seq<Chunk>, index: nat): Option<seq<text>>
    requires index <= |chunks|
    decreases |chunks| - index
  {
    if index == |chunks| then Some([])
    else if Speech(e, chunks[index].audio).None? || SpokenFrom(e, chunks, index + 1).None? then None
    else
      var segment := Segment(chunks[index].offset, Speech(e, chunks[index].audio).value);
      Some([segment] + SpokenFrom(e, chunks, index + 1).value)
  }

  lemma {:induction false} AttemptSpeaks(cache: Cache, e: Engine, a: Attempt, index: nat)
    requires Sound(e) && Faithful(cache, e) && index <= |a.chunks|
    ensures var r := AttemptFrom(cache, e, a, index);
      && Faithful(r.cache, e)
      && (r.segments.Some? ==> r.segments == SpokenFrom(e, a.chunks, index))
      && ((forall i: nat :: index <= i < |a.chunks| ==> a.fault(i) == NoFault) ==>
            r.segments == SpokenFrom(e, a.chunks, index))
    decreases |a.chunks| - index
  {
    hide Sound, Faithful, KindOf, Segment, Progress, Speech;
    if index < |a.chunks| {
      var (next, t) := ChunkText(cache, e, a.chunks[index], index, a.fault(index));
      ChunkFaithful(cache, e, a.chunks[index], index, a.fault(index));
      AttemptSpeaks(next, e, a, index + 1);
    }
  }

  ghost function Attempts(cache: Cache, e: Engine, attempts: seq<Attempt>): Cache
    decreases |attempts|
  {
    if |attempts| == 0 then cache else Attempts(RunAttempt(cache, e, attempts[0]).cache, e, attempts[1..])
  }

  lemma {:induction false} AttemptsFaithful(cache: Cache, e: Engine, attempts: seq<Attempt>)
    requires Sound(e) && Faithful(cache, e)
    ensures Faithful(Attempts(cache, e, attempts), e)
    decreases |attempts|
  {
    hide Sound, Faithful;
    if |attempts| > 0 {
      AttemptSpeaks(cache, e, attempts[0], 0);
      AttemptsFaithful(RunAttempt(cache, e, attempts[0]).cache, e, attempts[1..]);
    }
  }

  function Faultless(chunks: seq<Chunk>): Attempt {
    Attempt(chunks, (i: nat) => NoFault)
  }

  /** After any number of attempts, failed or not, with any lists of chunks, an attempt that gets to the
      end returns the transcript of an undisturbed run with an empty cache; and an undisturbed attempt
      gets to the end exactly when that run does. */
  lemma CacheIsInvisible(e: Engine, attempts: seq<Attempt>, last: Attempt)
    requires Sound(e)
    ensures var r := RunAttempt(Attempts(map[], e, attempts), e, last);
      var uncached := RunAttempt(map[], e, Faultless(last.chunks));
      && (r.segments.Some? ==> Transcript(r) == Transcript(uncached))
      && (last == Faultless(last.chunks) ==> Transcript(r) == Transcript(uncached))
  {
    hide Sound, ChunkText, SpokenFrom, JoinSegments;
    assert Faithful(map[], e);
    AttemptsFaithful(map[], e, attempts);
    AttemptSpeaks(Attempts(map[], e, attempts), e, last, 0);
    AttemptSpeaks(map[], e, Faultless(last.chunks), 0);
  }

  // ---------------------------------------------------------------- what a transcript says

  /** A line naming the hours, minutes and seconds of an offset: at least two digits for the hours, without
      needless zeros, and two each for the others. */
  predicate IsClock(h: text, m: text, s: text, offset: nat) {
    && AllDigits(h) && AllDigits(m) && AllDigits(s)
    && |h| >= 2 && (|h| > 2 ==> h[0] != ZERO) && |m| == 2 && |s| == 2 && DigitsValue(m) < 60 && DigitsValue(s) < 60
    && DigitsValue(h) * 3600 + DigitsValue(m) * 60 + DigitsValue(s) == offset / 1_000_000_000
  }

  ghost predicate IsHeader(head: text, offset: nat) {
    exists h: text, m: text, s: text :: IsClock(h, m, s, offset)
      && head == Ascii("[") + h + Ascii(":") + m + Ascii(":") + s + Ascii("]\n")
  }

  /** Where the part of a chunk begins: behind the parts of the chunks before it, and two line feeds each. */
  function Start(heads: seq<text>, spoken: seq<text>, i: nat): nat
    requires |heads| == |spoken| && i <= |heads|
  {
    if i == 0 then 0 else Start(heads, spoken, i - 1) + |heads[i - 1]| + |spoken[i - 1]| + 2
  }

  lemma TwoDigits(n: nat)
    requires n < 100
    ensures |Padded(n, 2)| == 2
  {
    if n >= 10 {
      assert Digits(n / 10) == [48 + n / 10];
      assert |Digits(n)| == |Digits(n / 10)| + 1;
    }
  }

  lemma PaddedStart(n: nat)
    ensures |Padded(n, 2)| >= 2 && (|Padded(n, 2)| > 2 ==> Padded(n, 2)[0] != ZERO)
  {
    DigitsShape(n);
  }

  lemma ClockOf(offset: nat)
    ensures var total: nat := offset / 1_000_000_000;
      IsClock(Padded(total / 3600, 2), Padded(total % 3600 / 60, 2), Padded(total % 60, 2), offset)
  {
    hide Digits, DigitsValue;
    var total: nat := offset / 1_000_000_000;
    var h, m, s := total / 3600, total % 3600 / 60, total % 60;
    PaddedValue(h, 2);
    PaddedValue(m, 2);
    PaddedValue(s, 2);
    TwoDigits(m);
    TwoDigits(s);
    PaddedStart(h);
    assert total % 3600 == 60 * m + s by { assert total % 3600 % 60 == s; }
  }

  /** Every segment is a header and its text. */
  lemma SegmentParts(offset: nat, t: text) returns (head: text)
    ensures IsHeader(head, offset) && Segment(offset, t) == head + t
  {
    hide Padded, IsClock;
    var total: nat := offset / 1_000_000_000;
    var h, m, s := Padded(total / 3600, 2), Padded(total % 3600 / 60, 2), Padded(total % 60, 2);
    ClockOf(offset);
    head := Ascii("[") + h + Ascii(":") + m + Ascii(":") + s + Ascii("]\n");
    assert Ascii("[") == [91] && Ascii(":") == [58] && Ascii("]\n") == [93, 10];
    assert Segment(offset, t) == head + t;
  }

  lemma {:induction false} SpokenSegments(e: Engine, chunks: seq<Chunk>, index: nat)
    requires index <= |chunks|
    ensures SpokenFrom(e, chunks, index).Some? <==>
      forall i :: index <= i < |chunks| ==> Speech(e, chunks[i].audio).Some?
    ensures SpokenFrom(e, chunks, index).Some? ==> var segments := SpokenFrom(e, chunks, index).value;
      |segments| == |chunks| - index
      && forall i :: index <= i < |chunks| ==>
           segments[i - index] == Segment(chunks[i].offset, Speech(e, chunks[i].audio).value)
    decreases |chunks| - index
  {
    hide Segment, Speech;
    if index < |chunks| {
      SpokenSegments(e, chunks, index + 1);
    }
  }

  lemma {:induction false} StartOfRest(heads: seq<text>, spoken: seq<text>, i: nat)
    requires |heads| == |spoken| && 0 < i <= |heads|
    ensures Start(heads, spoken, i) == |heads[0]| + |spoken[0]| + 2 + Start(heads[1..], spoken[1..], i - 1)
  {
    if i > 1 {
      StartOfRest(heads, spoken, i - 1);
    }
  }

  ghost predicate PlacedAt(t: text, heads: seq<text>, spoken: seq<text>, i: nat)
    requires |heads| == |spoken| && i < |heads|
  {
    var at := Start(heads, spoken, i);
    && at + |heads[i]| + |spoken[i]| <= |t|
    && t[at..at + |heads[i]|] == heads[i] && t[at + |heads[i]|..at + |heads[i]| + |spoken[i]|] == spoken[i]
    && (i > 0 ==> at >= 2 && t[at - 2..at] == Ascii("\n\n"))
  }

  lemma {:induction false} JoinedParts(segments: seq<text>, heads: seq<text>, spoken: seq<text>)
    requires |segments| == |heads| == |spoken| && |segments| > 0
    requires forall i :: 0 <= i < |segments| ==> segments[i] == heads[i] + spoken[i]
    ensures |JoinSegments(segments)| + 2 == Start(heads, spoken, |heads|)
    ensures forall i :: 0 <= i < |heads| ==> PlacedAt(JoinSegments(segments), heads, spoken, i)
    decreases |segments|
  {
    var t := JoinSegments(segments);
    assert Ascii("\n\n") == [10, 10];
    if |segments| > 1 {
      var rest := JoinSegments(segments[1..]);
      JoinedParts(segments[1..], heads[1..], spoken[1..]);
      StartOfRest(heads, spoken, |heads|);
      forall i | 0 <= i < |heads|
        ensures PlacedAt(t, heads, spoken, i)
      {
        if i > 0 {
          StartOfRest(heads, spoken, i);
          assert PlacedAt(rest, heads[1..], spoken[1..], i - 1);
          PlacedLater(segments[0], rest, heads, spoken, i);
        }
      }
    }
  }

  lemma PlacedLater(first: text, rest: text, heads: seq<text>, spoken: seq<text>, i: nat)
    requires |heads| == |spoken| && 0 < i < |heads| && first == heads[0] + spoken[0]
    requires PlacedAt(rest, heads[1..], spoken[1..], i - 1)
    ensures PlacedAt(first + [10, 10] + rest, heads, spoken, i)
  {
    StartOfRest(heads, spoken, i);
    var n := |first| + 2;
    var t := first + [10, 10] + rest;
    var at := Start(heads[1..], spoken[1..], i - 1);
    assert forall j, k :: 0 <= j <= k <= |rest| ==> t[n + j..n + k] == rest[j..k];
    assert Ascii("\n\n") == [10, 10];
    assert i == 1 ==> at == 0 && t[n - 2..n] == [10, 10];
  }

  /** After any attempts, the transcript of an attempt that gets to the end is, chunk by chunk in order, a
      header with the offset of the chunk and what is spoken in it, with two line feeds between chunks
      and nothing else. An undisturbed attempt gets to the end exactly when every chunk has speech. */
  lemma TranscriptSays(e: Engine, attempts: seq<Attempt>, last: Attempt)
    returns (heads: seq<text>, spoken: seq<text>)
    requires Sound(e)
    ensures var t := Transcript(RunAttempt(Attempts(map[], e, attempts), e, last));
      && (t.Some? ==>
            && |heads| == |spoken| == |last.chunks| > 0
            && (forall i :: 0 <= i < |heads| ==>
                  IsHeader(heads[i], last.chunks[i].offset) && Speech(e, last.chunks[i].audio) == Some(spoken[i]))
            && |t.value| + 2 == Start(heads, spoken, |heads|)
            && forall i :: 0 <= i < |heads| ==> PlacedAt(t.value, heads, spoken, i))
      && (last == Faultless(last.chunks) ==>
            (t.Some? <==> |last.chunks| > 0 && forall i :: 0 <= i < |last.chunks| ==>
                            Speech(e, last.chunks[i].audio).Some?))
  {
    hide Sound, ChunkText, SpokenFrom, JoinSegments, Segment, IsHeader, PlacedAt, Speech, Faithful;
    EmptyIsFaithful(e);
    AttemptsFaithful(map[], e, attempts);
    AttemptSpeaks(Attempts(map[], e, attempts), e, last, 0);
    SpokenSegments(e, last.chunks, 0);
    var r := RunAttempt(Attempts(map[], e, attempts), e, last);
    heads, spoken := [], [];
    if r.segments.Some? {
      heads, spoken := SpokenParts(e, last.chunks, r.segments.value);
      JoinedParts(r.segments.value, heads, spoken);
    }
  }

  lemma SpokenParts(e: Engine, chunks: seq<Chunk>, segments: seq<text>) returns (heads: seq<text>, spoken: seq<text>)
    requires |segments| == |chunks| && forall i :: 0 <= i < |chunks| ==>
               Speech(e, chunks[i].audio).Some?
               && segments[i] == Segment(chunks[i].offset, Speech(e, chunks[i].audio).value)
    ensures |heads| == |spoken| == |chunks| && forall i :: 0 <= i < |chunks| ==>
              && IsHeader(heads[i], chunks[i].offset) && Speech(e, chunks[i].audio) == Some(spoken[i])
              && segments[i] == heads[i] + spoken[i]
  {
    hide Segment, IsHeader, Speech;
    heads, spoken := [], [];
    while |heads| < |chunks|
      invariant |heads| == |spoken| <= |chunks|
      invariant forall i :: 0 <= i < |heads| ==>
        && IsHeader(heads[i], chunks[i].offset) && Speech(e, chunks[i].audio) == Some(spoken[i])
        && segments[i] == heads[i] + spoken[i]
    {
      var i := |heads|;
      var head := SegmentParts(chunks[i].offset, Speech(e, chunks[i].audio).value);
      heads, spoken := heads + [head], spoken + [Speech(e, chunks[i].audio).value];
    }
  }

  lemma EmptyIsFaithful(e: Engine)
    ensures Faithful(map[], e)
  {
  }

  // ---------------------------------------------------------------- what is kept

  /** The artifacts of other chunks are left alone. */
  lemma {:induction false} EarlierArtifactsKept(cache: Cache, e: Engine, a: Attempt, index: nat, i: nat)
    requires i < index <= |a.chunks|
    ensures var r := AttemptFrom(cache, e, a, index);
      (KindOf(i) in cache ==> KindOf(i) in r.cache && r.cache[KindOf(i)] == cache[KindOf(i)])
    decreases |a.chunks| - index
  {
    hide KindOf, Segment, Progress, Speech;
    if index < |a.chunks| {
      var next := ChunkText(cache, e, a.chunks[index], index, a.fault(index)).0;
      if KindOf(i) == KindOf(index) {
        KindInjective(i, index);
      }
      EarlierArtifactsKept(next, e, a, index + 1, i);
    }
  }

  /** Every chunk whose progress was reported is a hit for the next attempt at the same chunks: an
      attempt resumes where the last one stopped. */
  lemma {:induction false} ReportedChunksAreKept(cache: Cache, e: Engine, a: Attempt, index: nat, i: nat)
    requires Sound(e) && Faithful(cache, e)
    requires index <= i < |a.chunks| && i - index < |AttemptFrom(cache, e, a, index).progress|
    ensures Hit(AttemptFrom(cache, e, a, index).cache, e, a.chunks[i], i)
    decreases |a.chunks| - index
  {
    hide Sound, Faithful, KindOf, Segment, Progress, Speech;
    var next := ChunkText(cache, e, a.chunks[index], index, a.fault(index)).0;
    ChunkFaithful(cache, e, a.chunks[index], index, a.fault(index));
    if i == index {
      EarlierArtifactsKept(next, e, a, index + 1, i);
    } else {
      ReportedChunksAreKept(next, e, a, index + 1, i);
    }
  }

  // ---------------------------------------------------------------- progress

  lemma ProgressBounds(index: nat, count: nat)
    requires index < count
    ensures 42 <= Progress(index, count) <= 65
    ensures index + 1 == count ==> Progress(index, count) == 65
  {
    var n := (index + 1) * 23;
    assert n <= count * 23;
    QuotientAtMost(n, 23, count);
    if index + 1 == count {
      assert n == 23 * count;
    }
  }

  lemma QuotientAtMost(n: nat, q: nat, count: nat)
    requires count > 0 && n <= count * q
    ensures n / count <= q
  {
    MoreTimes(n / count, q, count);
  }

  lemma MoreTimes(a: nat, b: nat, count: nat)
    requires count > 0
    ensures a > b ==> a * count >= b * count + count
  {
    if a > b {
      assert a * count == (b + 1) * count + (a - b - 1) * count;
    }
  }

  lemma QuotientMonotone(m: nat, n: nat, count: nat)
    requires count > 0 && m <= n
    ensures m / count <= n / count
  {
    MoreTimes(m / count, n / count, count);
  }

  /** The reports of an attempt are those of its first chunks, in order. */
  lemma {:induction false} ReportsInOrder(cache: Cache, e: Engine, a: Attempt, index: nat, k: nat)
    requires index <= |a.chunks| && k < |AttemptFrom(cache, e, a, index).progress|
    ensures index + k < |a.chunks| && AttemptFrom(cache, e, a, index).progress[k] == Progress(index + k, |a.chunks|)
    decreases |a.chunks| - index
  {
    hide KindOf, Segment, Progress, Speech;
    var next := ChunkText(cache, e, a.chunks[index], index, a.fault(index)).0;
    if k > 0 {
      ReportsInOrder(next, e, a, index + 1, k - 1);
    }
  }

  lemma {:induction false} ReportsComplete(cache: Cache, e: Engine, a: Attempt, index: nat)
    requires index <= |a.chunks| && AttemptFrom(cache, e, a, index).segments.Some?
    ensures |AttemptFrom(cache, e, a, index).progress| == |a.chunks| - index
    decreases |a.chunks| - index
  {
    hide KindOf, Segment, Progress, Speech;
    if index < |a.chunks| {
      ReportsComplete(ChunkText(cache, e, a.chunks[index], index, a.fault(index)).0, e, a, index + 1);
    }
  }

  /** Reported progress never falls, stays between 42 and 65, and ends at 65 when an attempt gets to the
      end. */
  lemma ProgressNeverFalls(cache: Cache, e: Engine, a: Attempt)
    ensures var r := RunAttempt(cache, e, a);
      && (forall j, k :: 0 <= j <= k < |r.progress| ==> r.progress[j] <= r.progress[k])
      && (forall k :: 0 <= k < |r.progress| ==> 42 <= r.progress[k] <= 65)
      && (r.segments.Some? ==> |r.progress| > 0 && r.progress[|r.progress| - 1] == 65)
  {
    hide AttemptFrom;
    var r := RunAttempt(cache, e, a);
    if |a.chunks| > 0 {
      forall k | 0 <= k < |r.progress|
        ensures 42 <= r.progress[k] <= 65
      {
        ReportsInOrder(cache, e, a, 0, k);
        ProgressBounds(k, |a.chunks|);
      }
      forall j, k | 0 <= j <= k < |r.progress|
        ensures r.progress[j] <= r.progress[k]
      {
        ReportsInOrder(cache, e, a, 0, j);
        ReportsInOrder(cache, e, a, 0, k);
        QuotientMonotone((j + 1) * 23, (k + 1) * 23, |a.chunks|);
      }
      if r.segments.Some? {
        ReportsComplete(cache, e, a, 0);
        ReportsInOrder(cache, e, a, 0, |r.progress| - 1);
        ProgressBounds(|r.progress| - 1, |a.chunks|);
      }
    }
  }
}
