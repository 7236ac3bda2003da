/** Bounded capture of a child's output: the per-stream budget, the reader and its encoding. */
module Capture {
  import opened Common
  import opened Base64
  import opened SshTypes

  const MAX_STREAM_CAPTURE_BYTES: nat := 1024 * 1024
  const MAX_BATCH_CAPTURE_BYTES: nat := 64 * 1024 * 1024
  const USIZE_MAX: nat := 0xFFFF_FFFF_FFFF_FFFF

  function SaturatingDouble(n: nat): nat {
    Min(n * 2, USIZE_MAX)
  }

  function EffectiveStreamLimit(targetCount: nat): nat {
    var doubled := SaturatingDouble(targetCount);
    var streamCount := if doubled < 1 then 1 else doubled;
    Min(MAX_STREAM_CAPTURE_BYTES, MAX_BATCH_CAPTURE_BYTES / streamCount)
  }

  lemma QuotientIsLargest(n: nat, d: nat, limit: nat)
    requires d > 0
    ensures n / d * d <= n < (n / d + 1) * d
    ensures limit > n / d ==> limit * d > n
  {
    if limit > n / d {
      assert limit * d >= (n / d + 1) * d;
    }
  }

  /** The limit is the largest that respects both caps: two streams of every target fit into the
      batch budget, and no larger limit does unless it breaks the per-stream cap. */
  lemma LimitIsLargestFair(targetCount: nat, larger: nat)
    requires 1 <= targetCount <= USIZE_MAX
    ensures EffectiveStreamLimit(targetCount) <= 1_048_576
    ensures EffectiveStreamLimit(targetCount) * (2 * targetCount) <= 67_108_864
    ensures larger > EffectiveStreamLimit(targetCount) ==>
      larger > 1_048_576 || larger * (2 * targetCount) > 67_108_864
  {
    var limit := EffectiveStreamLimit(targetCount);
    var count := SaturatingDouble(targetCount);
    QuotientIsLargest(MAX_BATCH_CAPTURE_BYTES, count, larger);
    if count == 2 * targetCount {
      assert limit * count <= MAX_BATCH_CAPTURE_BYTES / count * count;
    } else {
      assert limit == 0;
      if larger > 0 {
        assert larger * (2 * targetCount) >= 2 * targetCount;
      }
    }
  }

  /** Raw bytes retained over both streams of every result. */
  function Retained(results: seq<TargetExecution>): nat {
    if results == [] then 0
    else results[0].stdout.capturedBytes + results[0].stderr.capturedBytes + Retained(results[1..])
  }

  predicate WithinLimit(result: TargetExecution, limit: nat) {
    result.stdout.capturedBytes <= limit && result.stderr.capturedBytes <= limit
  }

  lemma {:induction false} RetainedAtMost(results: seq<TargetExecution>, limit: nat)
    requires forall k :: 0 <= k < |results| ==> WithinLimit(results[k], limit)
    ensures Retained(results) <= limit * (2 * |results|)
  {
    if results != [] {
      assert WithinLimit(results[0], limit);
      RetainedAtMost(results[1..], limit);
      assert limit * (2 * |results|) == limit * (2 * |results[1..]|) + 2 * limit;
    }
  }

  /** Whatever the streams do, a batch of any size retains at most 64 MiB. */
  lemma BatchWithinBudget(results: seq<TargetExecution>)
    requires 1 <= |results| <= USIZE_MAX
    requires forall k :: 0 <= k < |results| ==>
      WithinLimit(results[k], EffectiveStreamLimit(|results|))
    ensures Retained(results) <= 67_108_864
  {
    RetainedAtMost(results, EffectiveStreamLimit(|results|));
    LimitIsLargestFair(|results|, 0);
  }

  /** One answer of `Read::read`: some bytes (none means end of file), an interruption, an error. */
  datatype ReadAnswer = Chunk(bytes: seq<Byte>) | Interrupted | ReadError

  datatype RawCapture = RawCapture(bytes: seq<Byte>, truncated: bool, readFailed: bool)

  const FAILED_CAPTURE := RawCapture([], false, true)

  /** All bytes delivered before end of file or an error. A pipe with no more answers is at its end. */
  function Delivered(answers: seq<ReadAnswer>): seq<Byte> {
    if answers == [] then []
    else
      match answers[0]
      case Chunk(bytes) => if bytes == [] then [] else bytes + Delivered(answers[1..])
      case Interrupted => Delivered(answers[1..])
      case ReadError => []
  }

  /** Whether an error comes before end of file. */
  predicate BreaksOff(answers: seq<ReadAnswer>) {
    answers != []
    && (answers[0].ReadError?
        || ((answers[0].Interrupted? || answers[0].bytes != []) && BreaksOff(answers[1..])))
  }

  /** What one answer delivers. */
  function BytesOf(answer: ReadAnswer): seq<Byte> {
    if answer.Chunk? then answer.bytes else []
  }

  function Joined(parts: seq<seq<Byte>>): seq<Byte> {
    if parts == [] then [] else parts[0] + Joined(parts[1..])
  }

  /** Reading ends at the first error or empty chunk, or with the last answer. Everything before it
      is delivered, in order, interruptions or not, and nothing from it on; and it breaks off exactly
      if this end is an error. */
  lemma {:induction false} DeliveredUpToTheEnd(answers: seq<ReadAnswer>) returns (end: nat)
    ensures end <= |answers|
    ensures forall k :: 0 <= k < end ==> answers[k] != ReadError && answers[k] != Chunk([])
    ensures end < |answers| ==> answers[end] == ReadError || answers[end] == Chunk([])
    ensures Delivered(answers) == Joined(Map(answers[..end], BytesOf))
    ensures BreaksOff(answers) <==> end < |answers| && answers[end] == ReadError
  {
    if answers == [] || answers[0] == ReadError || answers[0] == Chunk([]) {
      end := 0;
    } else {
      var rest := DeliveredUpToTheEnd(answers[1..]);
      end := rest + 1;
      var parts := Map(answers[..end], BytesOf);
      assert parts[1..] == Map(answers[1..][..rest], BytesOf);
    }
  }

  /** `read_bounded`: keep the first `limit` bytes delivered, drain the rest, and say so. */
  method ReadBounded(answers: seq<ReadAnswer>, limit: nat) returns (capture: RawCapture)
    ensures capture.bytes == Delivered(answers)[..Min(limit, |Delivered(answers)|)]
    ensures capture.truncated <==> |Delivered(answers)| > limit
    ensures capture.readFailed <==> BreaksOff(answers)
  {
    var bytes, truncated, readFailed := [], false, false;
    ghost var seen: seq<Byte> := [];
    var next := 0;
    while next < |answers|
      invariant 0 <= next <= |answers|
      invariant seen + Delivered(answers[next..]) == Delivered(answers)
      invariant BreaksOff(answers[next..]) <==> BreaksOff(answers)
      invariant bytes == seen[..Min(limit, |seen|)]
      invariant truncated <==> |seen| > limit
      invariant !readFailed
    {
      assert answers[next..][1..] == answers[next + 1..];
      match answers[next] {
        case Chunk(chunk) =>
          if chunk == [] {
            break;
          }
          var remaining := limit - Min(limit, |bytes|);
          var kept := Min(remaining, |chunk|);
          assert seen + (chunk + Delivered(answers[next + 1..]))
              == (seen + chunk) + Delivered(answers[next + 1..]);
          seen := seen + chunk;
          bytes := bytes + chunk[..kept];
          truncated := truncated || kept < |chunk|;
        case Interrupted =>
        case ReadError =>
          readFailed := true;
          break;
      }
      next := next + 1;
    }
    assert Delivered(answers[next..]) == [];
    assert seen == Delivered(answers);
    capture := RawCapture(bytes, truncated, readFailed);
  }

  /** `CapturedStream::from_raw`. Which byte strings are valid UTF-8 is a parameter. */
  function FromRaw(raw: RawCapture, isUtf8: seq<Byte> -> bool): CapturedStream {
    if isUtf8(raw.bytes)
    then CapturedStream(Text(raw.bytes), raw.truncated, |raw.bytes|)
    else CapturedStream(InBase64(Encoded(raw.bytes)), raw.truncated, |raw.bytes|)
  }

  /** The bytes a reader of the report gets back from a stream. */
  function Recover(stream: CapturedStream): Option<seq<Byte>> {
    match stream.data
    case Text(utf8) => Some(utf8)
    case InBase64(text) => Decode(text)
  }

  /** No captured byte is lost in either encoding, and the byte count is exact. */
  lemma FromRawIsLossless(raw: RawCapture, isUtf8: seq<Byte> -> bool)
    ensures FromRaw(raw, isUtf8).data.Text? <==> isUtf8(raw.bytes)
    ensures Recover(FromRaw(raw, isUtf8)) == Some(raw.bytes)
    ensures FromRaw(raw, isUtf8).capturedBytes == |raw.bytes|
    ensures FromRaw(raw, isUtf8).truncated == raw.truncated
  {
    RoundTrip(raw.bytes);
  }
}
