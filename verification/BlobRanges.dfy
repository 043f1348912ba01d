/** The segmented blob download: parts of 8 MiB, fetched in ranges of 4 MiB with
    inclusive ends (byte ranges as in section 14.1.2 of RFC 9110), and assembled. */
module BlobRanges {
  import opened Sequences

  type Byte = n: int | 0 <= n < 256 witness 0

  const CHUNK: nat := 8 * 1024 * 1024
  const RANGE: nat := 4 * 1024 * 1024

  /** An inclusive byte range. */
  datatype Range = Range(first: int, last: int)

  function Min(a: int, b: int): int {
    if a < b then a else b
  }

  // ----- the tiling -----

  /** `range(start, end + 1, RANGE)` with its last bytes. */
  function InnerRanges(start: int, end: int): seq<Range>
    decreases end + 1 - start
  {
    if start > end then [] else
      [Range(start, Min(start + RANGE - 1, end))] + InnerRanges(start + RANGE, end)
  }

  /** The parts from start on, each as its inner ranges. */
  function PartRanges(start: int, size: int): seq<Range>
    decreases size - start
  {
    if start >= size then [] else
      InnerRanges(start, Min(start + CHUNK, size) - 1) + PartRanges(start + CHUNK, size)
  }

  /** The ranges run from first to last without gap or overlap, none longer than
      the inner limit. */
  ghost predicate Tile(ranges: seq<Range>, first: int, end: int) {
    if ranges == [] then first == end else
      && ranges[0].first == first <= ranges[0].last < end
      && ranges[0].last - first < RANGE
      && Tile(ranges[1..], ranges[0].last + 1, end)
  }

  lemma {:induction false} InnerTile(start: int, end: int)
    requires start <= end + 1
    ensures Tile(InnerRanges(start, end), start, end + 1)
    decreases end + 1 - start
  {
    if start <= end {
      if start + RANGE <= end {
        InnerTile(start + RANGE, end);
      } else {
        assert InnerRanges(start + RANGE, end) == [];
      }
    }
  }

  lemma {:induction false} TileConcat(a: seq<Range>, b: seq<Range>, first: int, middle: int, end: int)
    requires Tile(a, first, middle) && Tile(b, middle, end) && middle <= end
    ensures Tile(a + b, first, end)
  {
    if a == [] {
      assert a + b == b;
    } else {
      assert (a + b)[1..] == a[1..] + b;
      TileConcat(a[1..], b, a[0].last + 1, middle, end);
    }
  }

  lemma {:induction false} PartsTile(start: int, size: int)
    requires 0 <= start <= size
    ensures Tile(PartRanges(start, size), start, size)
    decreases size - start
  {
    if start < size {
      var end := Min(start + CHUNK, size);
      InnerTile(start, end - 1);
      if start + CHUNK <= size {
        PartsTile(start + CHUNK, size);
      } else {
        assert PartRanges(start + CHUNK, size) == [];
      }
      TileConcat(InnerRanges(start, end - 1), PartRanges(start + CHUNK, size), start, end, size);
    }
  }

  lemma {:induction false} TileCovers(ranges: seq<Range>, first: int, end: int, offset: int)
    requires Tile(ranges, first, end)
    ensures first <= offset < end <==> exists k :: 0 <= k < |ranges| && Holds(ranges[k], offset)
    ensures forall k, m :: 0 <= k < m < |ranges| ==> first <= ranges[k].last < ranges[m].first
    decreases |ranges|
  {
    if ranges != [] {
      var rest, next := ranges[1..], ranges[0].last + 1;
      TileCovers(rest, next, end, offset);
      TileOrder(rest, next, end);
      if first <= offset < next {
        assert Holds(ranges[0], offset);
      } else if next <= offset < end {
        var k :| 0 <= k < |rest| && Holds(rest[k], offset);
        assert Holds(ranges[k + 1], offset);
      }
      if k :| 0 <= k < |ranges| && Holds(ranges[k], offset) {
        if k > 0 { assert rest[k - 1] == ranges[k]; }
      }
      forall k, m | 0 <= k < m < |ranges| ensures first <= ranges[k].last < ranges[m].first {
        assert ranges[m] == rest[m - 1];
        if k > 0 { assert ranges[k] == rest[k - 1]; }
      }
    }
  }

  lemma {:induction false} TileOrder(ranges: seq<Range>, first: int, end: int)
    requires Tile(ranges, first, end)
    ensures first <= end
    ensures forall k :: 0 <= k < |ranges| ==> first <= ranges[k].first <= ranges[k].last < end
    decreases |ranges|
  {
    if ranges != [] {
      TileOrder(ranges[1..], ranges[0].last + 1, end);
    }
  }

  predicate Holds(range: Range, offset: int) {
    range.first <= offset <= range.last
  }

  /** Every range the download requests, in order. */
  function AllRanges(size: nat): seq<Range> {
    PartRanges(0, size)
  }

  /** Both levels together: every offset of the blob lies in a requested range,
      nothing else does, and the ranges ascend without overlap. */
  lemma EveryByteOnce(size: nat, offset: int)
    ensures 0 <= offset < size <==> exists k :: 0 <= k < |AllRanges(size)| && Holds(AllRanges(size)[k], offset)
    ensures forall k, m :: 0 <= k < m < |AllRanges(size)| ==> AllRanges(size)[k].last < AllRanges(size)[m].first
    ensures forall k :: 0 <= k < |AllRanges(size)| ==> 0 <= AllRanges(size)[k].first <= AllRanges(size)[k].last < size
  {
    var ranges := AllRanges(size);
    PartsTile(0, size);
    TileCovers(ranges, 0, size, offset);
    TileOrder(ranges, 0, size);
  }

  // ----- one part -----

  /** A response: 206 with its Content-Range and body, or 200 with the whole body;
      otherwise an error status, a transport error or the 30-second limit. */
  datatype Response = Partial(range: Range, total: int, body: seq<Byte>) | Whole(body: seq<Byte>) | Failure

  datatype FetchError = NoResponse | MismatchingRange | RangesNotHonoured | Truncated

  /** The registry as one attempt meets it. */
  type Server = (int, int) -> Response

  /** The registry as the attempts at each part meet it, by part and attempt. */
  type Registry = (int, nat) -> Server

  const ATTEMPTS: nat := 3

  /** What one range request comes to. */
  function FetchRange(server: Server, first: int, last: int, size: nat): Fetched {
    match server(first, last)
    case Failure => Err(NoResponse)
    case Partial(range, total, body) =>
      if range != Range(first, last) || total != size then Err(MismatchingRange)
      else if |body| != last - first + 1 then Err(Truncated)
      else Ok(body)
    case Whole(body) =>
      if !(first == 0 && last == size - 1) then Err(RangesNotHonoured)
      else if |body| != last - first + 1 then Err(Truncated)
      else Ok(body)
  }

  /** Content, or why there is none. */
  type Fetched = Result<seq<Byte>, FetchError>

  function Prepend(output: seq<Byte>, rest: Fetched): Fetched {
    match rest
    case Err(e) => Err(e)
    case Ok(content) => Ok(output + content)
  }

  lemma PrependNothing(rest: Fetched)
    ensures Prepend([], rest) == rest
  {
    if rest.Ok? { assert [] + rest.value == rest.value; }
  }

  lemma PrependMore(output: seq<Byte>, part: seq<Byte>, rest: Fetched)
    ensures Prepend(output, Prepend(part, rest)) == Prepend(output + part, rest)
  {
    if rest.Ok? { Reassociate(output, part, rest.value); }
  }

  /** The bodies of the ranges in order, or the first error. */
  function FetchAll(server: Server, ranges: seq<Range>, size: nat): Fetched {
    if ranges == [] then Ok([]) else
      match FetchRange(server, ranges[0].first, ranges[0].last, size)
      case Err(e) => Err(e)
      case Ok(body) => Prepend(body, FetchAll(server, ranges[1..], size))
  }

  /** The bytes of the blob in a range. */
  function Slice(blob: seq<Byte>, range: Range): seq<Byte> {
    if 0 <= range.first <= range.last < |blob| then blob[range.first..range.last + 1] else []
  }

  /** Whatever the checks let through for one of the ranges is its slice of the blob. */
  ghost predicate Truthful(server: Server, ranges: seq<Range>, blob: seq<Byte>) {
    forall k :: 0 <= k < |ranges| ==>
      var r := FetchRange(server, ranges[k].first, ranges[k].last, |blob|); r.Ok? ==> r.value == Slice(blob, ranges[k])
  }

  /** The answer the range asks for: its slice with 206, or the whole blob with 200
      when the range is the whole blob. */
  predicate Answers(server: Server, range: Range, blob: seq<Byte>) {
    || server(range.first, range.last) == Partial(range, |blob|, Slice(blob, range))
    || (range == Range(0, |blob| - 1) && server(range.first, range.last) == Whole(blob))
  }

  ghost predicate Honest(server: Server, ranges: seq<Range>, blob: seq<Byte>) {
    forall k :: 0 <= k < |ranges| ==> Answers(server, ranges[k], blob)
  }

  /** Such an answer gets through the checks as that slice. */
  lemma AnswersGetThrough(server: Server, range: Range, blob: seq<Byte>)
    requires 0 <= range.first <= range.last < |blob| && Answers(server, range, blob)
    ensures FetchRange(server, range.first, range.last, |blob|) == Ok(Slice(blob, range))
  {
    assert blob[0..|blob|] == blob;
  }

  lemma {:induction false} FetchedLength(server: Server, ranges: seq<Range>, first: int, end: int, size: nat)
    requires Tile(ranges, first, end)
    ensures var r := FetchAll(server, ranges, size); r.Ok? ==> |r.value| == end - first
    decreases |ranges|
  {
    if ranges != [] { FetchedLength(server, ranges[1..], ranges[0].last + 1, end, size); }
  }

  /** Truthful answers to a tiling put the slice together. */
  lemma {:induction false} FetchedSlice(server: Server, ranges: seq<Range>, first: int, end: int, blob: seq<Byte>)
    requires Tile(ranges, first, end) && 0 <= first <= end <= |blob| && Truthful(server, ranges, blob)
    ensures var r := FetchAll(server, ranges, |blob|); r.Ok? ==> r.value == blob[first..end]
    decreases |ranges|
  {
    if ranges != [] {
      var rest, next := ranges[1..], ranges[0].last + 1;
      TileOrder(rest, next, end);
      assert Truthful(server, rest, blob) by {
        forall k | 0 <= k < |rest| ensures rest[k] == ranges[k + 1] {}
      }
      FetchedSlice(server, rest, next, end, blob);
      assert Slice(blob, ranges[0]) == blob[first..next];
      assert blob[first..next] + blob[next..end] == blob[first..end];
    }
  }

  lemma {:induction false} HonestIsTruthful(server: Server, ranges: seq<Range>, first: int, end: int, blob: seq<Byte>)
    requires Tile(ranges, first, end) && 0 <= first <= end <= |blob| && Honest(server, ranges, blob)
    ensures Truthful(server, ranges, blob)
  {
    TileOrder(ranges, first, end);
    forall k | 0 <= k < |ranges|
      ensures FetchRange(server, ranges[k].first, ranges[k].last, |blob|) == Ok(Slice(blob, ranges[k]))
    {
      AnswersGetThrough(server, ranges[k], blob);
    }
  }

  lemma {:induction false} HonestGetsThrough(server: Server, ranges: seq<Range>, first: int, end: int, blob: seq<Byte>)
    requires Tile(ranges, first, end) && 0 <= first <= end <= |blob| && Honest(server, ranges, blob)
    ensures FetchAll(server, ranges, |blob|).Ok?
    decreases |ranges|
  {
    if ranges != [] {
      var rest, next := ranges[1..], ranges[0].last + 1;
      TileOrder(rest, next, end);
      assert Honest(server, rest, blob) by {
        forall k | 0 <= k < |rest| ensures Answers(server, rest[k], blob) { assert rest[k] == ranges[k + 1]; }
      }
      HonestGetsThrough(server, rest, next, end, blob);
      AnswersGetThrough(server, ranges[0], blob);
    }
  }

  /** Honest answers to a tiling are truthful and always put it together. */
  lemma HonestSlice(server: Server, ranges: seq<Range>, first: int, end: int, blob: seq<Byte>)
    requires Tile(ranges, first, end) && 0 <= first <= end <= |blob| && Honest(server, ranges, blob)
    ensures Truthful(server, ranges, blob) && FetchAll(server, ranges, |blob|) == Ok(blob[first..end])
  {
    HonestIsTruthful(server, ranges, first, end, blob);
    HonestGetsThrough(server, ranges, first, end, blob);
    FetchedSlice(server, ranges, first, end, blob);
  }

  function PartEnd(start: int, size: int): int {
    Min(start + CHUNK, size)
  }

  /** The ranges of one part. */
  function RangesOf(start: int, size: int): seq<Range> {
    InnerRanges(start, PartEnd(start, size) - 1)
  }

  /** What `fetch` comes to from this attempt on: the first attempt that gets through,
      or the error of the last. */
  function Tries(registry: Registry, start: int, size: nat, attempt: nat): Fetched
    requires attempt < ATTEMPTS
    decreases ATTEMPTS - attempt
  {
    match FetchAll(registry(start, attempt), RangesOf(start, size), size)
    case Ok(part) => Ok(part)
    case Err(e) => if attempt + 1 == ATTEMPTS then Err(e) else Tries(registry, start, size, attempt + 1)
  }

  lemma {:induction false} FetchSnoc(server: Server, ranges: seq<Range>, range: Range, size: nat)
    ensures FetchAll(server, ranges + [range], size) ==
            match FetchAll(server, ranges, size)
            case Err(e) => Err(e)
            case Ok(content) => Prepend(content, FetchRange(server, range.first, range.last, size))
  {
    if ranges == [] {
      assert ranges + [range] == [range] && [range][1..] == [];
      if FetchRange(server, range.first, range.last, size).Ok? {
        var body := FetchRange(server, range.first, range.last, size).value;
        assert body + [] == [] + body == body;
      }
    } else {
      assert (ranges + [range])[1..] == ranges[1..] + [range];
      FetchSnoc(server, ranges[1..], range, size);
      var head, rest := FetchRange(server, ranges[0].first, ranges[0].last, size), FetchAll(server, ranges[1..], size);
      var last := FetchRange(server, range.first, range.last, size);
      if head.Ok? && rest.Ok? && last.Ok? {
        Reassociate(head.value, rest.value, last.value);
      }
    }
  }

  /** An error among the first ranges is the error of them all. */
  lemma {:induction false} FetchStops(server: Server, ranges: seq<Range>, more: seq<Range>, size: nat)
    requires FetchAll(server, ranges, size).Err?
    ensures FetchAll(server, ranges + more, size) == FetchAll(server, ranges, size)
  {
    assert (ranges + more)[1..] == ranges[1..] + more;
    if FetchRange(server, ranges[0].first, ranges[0].last, size).Ok? {
      FetchStops(server, ranges[1..], more, size);
    }
  }

  lemma InnerStep(start: int, offset: int, end: int, done: seq<Range>)
    requires offset <= end && InnerRanges(start, end) == done + InnerRanges(offset, end)
    ensures InnerRanges(start, end)
              == (done + [Range(offset, Min(offset + RANGE - 1, end))]) + InnerRanges(offset + RANGE, end)
  {
    Reassociate(done, [Range(offset, Min(offset + RANGE - 1, end))], InnerRanges(offset + RANGE, end));
  }

  /** One attempt: the loop over the inner ranges, left at the first error. */
  method Attempt(server: Server, start: int, size: nat) returns (r: Fetched)
    requires 0 <= start < size
    ensures r == FetchAll(server, RangesOf(start, size), size)
  {
    var end := PartEnd(start, size) - 1;
    var content: seq<Byte> := [];
    var offset := start;
    ghost var done: seq<Range> := [];
    assert done + InnerRanges(start, end) == InnerRanges(start, end);
    while offset < end + 1
      invariant start <= offset
      invariant InnerRanges(start, end) == done + InnerRanges(offset, end)
      invariant FetchAll(server, done, size) == Ok(content)
      decreases end + 1 - offset
    {
      var last := Min(offset + RANGE - 1, end);
      InnerStep(start, offset, end, done);
      FetchSnoc(server, done, Range(offset, last), size);
      done := done + [Range(offset, last)];
      match FetchRange(server, offset, last, size) {
        case Err(e) =>
          FetchStops(server, done, InnerRanges(offset + RANGE, end), size);
          return Err(e);
        case Ok(body) =>
          content := content + body;
      }
      offset := offset + RANGE;
    }
    assert done + [] == done;
    return Ok(content);
  }

  /** `fetch` without a part on disk: every attempt starts the part afresh. */
  method Fetch(registry: Registry, start: int, size: nat) returns (r: Fetched)
    requires 0 <= start < size
    ensures r == Tries(registry, start, size, 0)
  {
    r := Err(NoResponse);
    for attempt := 0 to ATTEMPTS
      invariant Tries(registry, start, size, 0) ==
                if attempt < ATTEMPTS then Tries(registry, start, size, attempt) else r
      invariant attempt > 0 ==> r.Err?
    {
      r := Attempt(registry(start, attempt), start, size);
      if r.Ok? {
        return;
      }
    }
  }

  lemma {:induction false} TriesLength(registry: Registry, start: int, size: nat, attempt: nat)
    requires attempt < ATTEMPTS && 0 <= start < size
    ensures var r := Tries(registry, start, size, attempt); r.Ok? ==> |r.value| == PartEnd(start, size) - start
    decreases ATTEMPTS - attempt
  {
    InnerTile(start, PartEnd(start, size) - 1);
    FetchedLength(registry(start, attempt), RangesOf(start, size), start, PartEnd(start, size), size);
    if attempt + 1 < ATTEMPTS { TriesLength(registry, start, size, attempt + 1); }
  }

  /** The attempt is made: those before it have failed. */
  ghost predicate Made(registry: Registry, start: int, size: nat, attempt: nat) {
    forall a: nat :: a < attempt ==> FetchAll(registry(start, a), RangesOf(start, size), size).Err?
  }

  /** Nothing wrong gets past the checks at any attempt that is made. */
  ghost predicate Trusted(registry: Registry, start: int, blob: seq<Byte>) {
    forall a: nat :: a < ATTEMPTS && Made(registry, start, |blob|, a) ==>
      Truthful(registry(start, a), RangesOf(start, |blob|), blob)
  }

  /** One of the attempts, from this one on, would meet honest answers. */
  ghost predicate Reachable(registry: Registry, start: int, blob: seq<Byte>, attempt: nat) {
    exists a: nat :: attempt <= a < ATTEMPTS && Honest(registry(start, a), RangesOf(start, |blob|), blob)
  }

  lemma {:induction false} TruthfulAttempt(server: Server, start: int, blob: seq<Byte>)
    requires 0 <= start < |blob| && Truthful(server, RangesOf(start, |blob|), blob)
    ensures var r := FetchAll(server, RangesOf(start, |blob|), |blob|);
            r.Ok? ==> r.value == blob[start..PartEnd(start, |blob|)]
  {
    InnerTile(start, PartEnd(start, |blob|) - 1);
    FetchedSlice(server, RangesOf(start, |blob|), start, PartEnd(start, |blob|), blob);
  }

  lemma {:induction false} HonestAttempt(server: Server, start: int, blob: seq<Byte>)
    requires 0 <= start < |blob| && Honest(server, RangesOf(start, |blob|), blob)
    ensures FetchAll(server, RangesOf(start, |blob|), |blob|) == Ok(blob[start..PartEnd(start, |blob|)])
  {
    InnerTile(start, PartEnd(start, |blob|) - 1);
    HonestSlice(server, RangesOf(start, |blob|), start, PartEnd(start, |blob|), blob);
  }

  /** When nothing wrong gets past the checks, a part that comes through is its slice of
      the blob, and it comes through if any of the attempts meets honest answers. */
  lemma {:induction false} TriesSlice(registry: Registry, start: int, attempt: nat, blob: seq<Byte>)
    requires attempt < ATTEMPTS && 0 <= start < |blob|
    requires Trusted(registry, start, blob) && Made(registry, start, |blob|, attempt)
    ensures var r := Tries(registry, start, |blob|, attempt); r.Ok? ==> r.value == blob[start..PartEnd(start, |blob|)]
    ensures Reachable(registry, start, blob, attempt) ==> Tries(registry, start, |blob|, attempt).Ok?
    decreases ATTEMPTS - attempt
  {
    TruthfulAttempt(registry(start, attempt), start, blob);
    if Honest(registry(start, attempt), RangesOf(start, |blob|), blob) {
      HonestAttempt(registry(start, attempt), start, blob);
    }
    if FetchAll(registry(start, attempt), RangesOf(start, |blob|), |blob|).Err? && attempt + 1 < ATTEMPTS {
      TriesSlice(registry, start, attempt + 1, blob);
    }
  }

  // ----- assembly -----

  datatype DownloadError = FetchFailed(error: FetchError) | DigestMismatch

  /** A part on disk of the right length is taken as it is. */
  predicate Reusable(disk: map<int, seq<Byte>>, start: int, size: nat) {
    start in disk && |disk[start]| == PartEnd(start, size) - start
  }

  /** One part, from disk or from the registry. */
  function Part(registry: Registry, disk: map<int, seq<Byte>>, start: int, size: nat): Fetched {
    if Reusable(disk, start, size) then Ok(disk[start]) else Tries(registry, start, size, 0)
  }

  /** The parts from start on put together, or the first error. */
  function Parts(registry: Registry, disk: map<int, seq<Byte>>, start: int, size: nat): Fetched
    decreases size - start
  {
    if start >= size then Ok([]) else
      match Part(registry, disk, start, size)
      case Err(e) => Err(e)
      case Ok(part) => Prepend(part, Parts(registry, disk, start + CHUNK, size))
  }

  /** What is requested of one part. */
  function OwnRanges(disk: map<int, seq<Byte>>, start: int, size: nat): seq<Range> {
    if Reusable(disk, start, size) then [] else RangesOf(start, size)
  }

  /** The ranges to request: those of the parts that are not reused. */
  function MissingRanges(disk: map<int, seq<Byte>>, start: int, size: nat): seq<Range>
    decreases size - start
  {
    if start >= size then [] else
      OwnRanges(disk, start, size) + MissingRanges(disk, start + CHUNK, size)
  }

  /** A part of the blob begins here. */
  predicate PartStart(start: int, size: nat) {
    0 <= start < size && start % CHUNK == 0
  }

  /** The parts on disk that are reused hold what the blob holds there. */
  ghost predicate SoundDisk(disk: map<int, seq<Byte>>, blob: seq<Byte>) {
    forall start :: PartStart(start, |blob|) && Reusable(disk, start, |blob|) ==>
      disk[start] == blob[start..PartEnd(start, |blob|)]
  }

  /** What is reused from disk is sound; for every part that is not reused, nothing
      wrong gets past the checks and one of the attempts would meet honest answers. */
  ghost predicate Delivers(registry: Registry, disk: map<int, seq<Byte>>, blob: seq<Byte>) {
    && SoundDisk(disk, blob)
    && (forall start :: PartStart(start, |blob|) && !Reusable(disk, start, |blob|) ==>
          Trusted(registry, start, blob) && Reachable(registry, start, blob, 0))
  }

  /** The loop over the parts: fetch or reuse each one and append it.  requested
      collects the ranges whose bodies are in the output. */
  method Assemble(registry: Registry, disk: map<int, seq<Byte>>, size: nat) returns (r: Fetched, requested: seq<Range>)
    ensures r == Parts(registry, disk, 0, size)
    ensures r.Ok? ==> requested == MissingRanges(disk, 0, size)
  {
    var output: seq<Byte> := [];
    var start := 0;
    requested := [];
    PrependNothing(Parts(registry, disk, 0, size));
    while start < size
      invariant 0 <= start
      invariant requested + MissingRanges(disk, start, size) == MissingRanges(disk, 0, size)
      invariant Parts(registry, disk, 0, size) == Prepend(output, Parts(registry, disk, start, size))
      decreases size - start
    {
      var part: seq<Byte>;
      if Reusable(disk, start, size) {
        part := disk[start];
      } else {
        var fetched := Fetch(registry, start, size);
        if fetched.Err? {
          return fetched, requested;
        }
        part := fetched.value;
      }
      PrependMore(output, part, Parts(registry, disk, start + CHUNK, size));
      Reassociate(requested, OwnRanges(disk, start, size), MissingRanges(disk, start + CHUNK, size));
      requested := requested + OwnRanges(disk, start, size);
      output := output + part;
      start := start + CHUNK;
    }
    assert requested + [] == requested && output + [] == output;
    return Ok(output), requested;
  }

  /** `download_blob` past the cache: assemble the parts and verify the digest. */
  method DownloadBlob(registry: Registry, disk: map<int, seq<Byte>>, size: nat,
                      digest: seq<Byte> -> string, expected: string)
    returns (r: Result<seq<Byte>, DownloadError>, requested: seq<Range>)
    ensures r.Ok? ==> digest(r.value) == expected && |r.value| == size
    ensures r.Ok? ==> requested == MissingRanges(disk, 0, size)
    ensures forall blob :: |blob| == size && Delivers(registry, disk, blob) ==>
              r == if digest(blob) == expected then Ok(blob) else Err(DigestMismatch)
    ensures r == match Parts(registry, disk, 0, size)
                 case Err(e) => Err(FetchFailed(e))
                 case Ok(output) => if digest(output) == expected then Ok(output) else Err(DigestMismatch)
  {
    AssembledBlob(registry, disk, size);
    var assembled: Fetched;
    assembled, requested := Assemble(registry, disk, size);
    if assembled.Err? {
      return Err(FetchFailed(assembled.error)), requested;
    }
    if digest(assembled.value) != expected {
      return Err(DigestMismatch), requested;
    }
    return Ok(assembled.value), requested;
  }

  /** What is assembled has the size of the blob, and is any blob that the registry
      and the disk deliver, whichever parts are reused. */
  lemma AssembledBlob(registry: Registry, disk: map<int, seq<Byte>>, size: nat)
    ensures var r := Parts(registry, disk, 0, size); r.Ok? ==> |r.value| == size
    ensures forall blob :: |blob| == size && Delivers(registry, disk, blob) ==>
              Parts(registry, disk, 0, size) == Ok(blob)
  {
    PartsLength(registry, disk, 0, size);
    forall blob | |blob| == size && Delivers(registry, disk, blob) ensures Parts(registry, disk, 0, size) == Ok(blob) {
      PartsDeliver(registry, disk, 0, blob);
      assert blob[0..] == blob;
    }
  }

  lemma {:induction false} PartsLength(registry: Registry, disk: map<int, seq<Byte>>, start: int, size: nat)
    requires 0 <= start
    ensures var r := Parts(registry, disk, start, size); r.Ok? ==> |r.value| == size - Min(start, size)
    decreases size - start
  {
    if start < size {
      TriesLength(registry, start, size, 0);
      PartsLength(registry, disk, start + CHUNK, size);
    }
  }

  lemma PartDelivers(registry: Registry, disk: map<int, seq<Byte>>, start: int, blob: seq<Byte>)
    requires PartStart(start, |blob|) && Delivers(registry, disk, blob)
    ensures Part(registry, disk, start, |blob|) == Ok(blob[start..PartEnd(start, |blob|)])
  {
    if !Reusable(disk, start, |blob|) {
      TriesSlice(registry, start, 0, blob);
    }
  }

  lemma NextPart(start: int)
    requires start % CHUNK == 0
    ensures (start + CHUNK) % CHUNK == 0
  {}

  lemma TailJoin(blob: seq<Byte>, start: int, end: int)
    requires 0 <= start <= end <= |blob|
    ensures blob[start..end] + blob[end..] == blob[start..]
  {}

  lemma {:induction false} PartsStep(registry: Registry, disk: map<int, seq<Byte>>, start: int, size: nat,
                  part: seq<Byte>, rest: seq<Byte>)
    requires start < size
    requires Part(registry, disk, start, size) == Ok(part) && Parts(registry, disk, start + CHUNK, size) == Ok(rest)
    ensures Parts(registry, disk, start, size) == Ok(part + rest)
  {}

  lemma {:induction false} PartsDeliver(registry: Registry, disk: map<int, seq<Byte>>, start: int, blob: seq<Byte>)
    requires 0 <= start && start % CHUNK == 0 && Delivers(registry, disk, blob)
    ensures Parts(registry, disk, start, |blob|) == Ok(blob[Min(start, |blob|)..])
    decreases |blob| - start
  {
    if start < |blob| {
      var end := PartEnd(start, |blob|);
      PartDelivers(registry, disk, start, blob);
      NextPart(start);
      PartsDeliver(registry, disk, start + CHUNK, blob);
      PartsStep(registry, disk, start, |blob|, blob[start..end], blob[end..]);
      TailJoin(blob, start, end);
    } else {
      assert blob[|blob|..] == [];
    }
  }

  /** The start of the part an offset lies in. */
  function PartOf(offset: nat): nat {
    offset / CHUNK * CHUNK
  }

  /** The ranges ascend, from first on and below end. */
  ghost predicate Ascends(ranges: seq<Range>, first: int, end: int) {
    && (forall k :: 0 <= k < |ranges| ==> first <= ranges[k].first <= ranges[k].last < end)
    && (forall k, m :: 0 <= k < m < |ranges| ==> ranges[k].last < ranges[m].first)
  }

  lemma AscendsConcat(a: seq<Range>, b: seq<Range>, first: int, middle: int, end: int)
    requires Ascends(a, first, middle) && Ascends(b, middle, end) && first <= middle <= end
    ensures Ascends(a + b, first, end)
  {}

  ghost predicate Held(ranges: seq<Range>, offset: int) {
    exists k :: 0 <= k < |ranges| && Holds(ranges[k], offset)
  }

  lemma HeldConcat(a: seq<Range>, b: seq<Range>, offset: int)
    ensures Held(a + b, offset) <==> Held(a, offset) || Held(b, offset)
  {
    if k :| 0 <= k < |a| && Holds(a[k], offset) { assert Holds((a + b)[k], offset); }
    if k :| 0 <= k < |b| && Holds(b[k], offset) { assert Holds((a + b)[|a| + k], offset); }
    if k :| 0 <= k < |a + b| && Holds((a + b)[k], offset) {
      if k >= |a| { assert Holds(b[k - |a|], offset); } else { assert Holds(a[k], offset); }
    }
  }

  lemma PartOfNext(start: nat, offset: nat)
    requires start % CHUNK == 0
    ensures start <= offset < start + CHUNK <==> PartOf(offset) == start
  {
    assert start / CHUNK * CHUNK == start;
  }

  /** One part's own ranges hold exactly its bytes. */
  lemma PartCovers(start: nat, end: nat, offset: int)
    requires start < end
    ensures Ascends(InnerRanges(start, end - 1), start, end)
    ensures Held(InnerRanges(start, end - 1), offset) <==> start <= offset < end
  {
    var ranges := InnerRanges(start, end - 1);
    InnerTile(start, end - 1);
    TileCovers(ranges, start, end, offset);
    TileOrder(ranges, start, end);
  }

  lemma OwnCovers(disk: map<int, seq<Byte>>, start: nat, size: nat, offset: nat)
    requires start % CHUNK == 0 && start < size
    ensures var own := OwnRanges(disk, start, size);
            && Ascends(own, start, PartEnd(start, size))
            && (Held(own, offset) <==> start <= offset < PartEnd(start, size) && !Reusable(disk, PartOf(offset), size))
  {
    PartOfNext(start, offset);
    PartCovers(start, PartEnd(start, size), offset);
  }

  lemma {:induction false} MissingCovers(disk: map<int, seq<Byte>>, start: nat, size: nat, offset: nat)
    requires start % CHUNK == 0
    ensures var ranges := MissingRanges(disk, start, size);
            && Ascends(ranges, Min(start, size), size)
            && (Held(ranges, offset) <==> start <= offset < size && !Reusable(disk, PartOf(offset), size))
    decreases size - start
  {
    if start < size {
      var own, rest := OwnRanges(disk, start, size), MissingRanges(disk, start + CHUNK, size);
      MissingCovers(disk, start + CHUNK, size, offset);
      OwnCovers(disk, start, size, offset);
      HeldConcat(own, rest, offset);
      AscendsConcat(own, rest, start, PartEnd(start, size), size);
    }
  }

  /** Exactly the bytes of the parts that are not reused are requested, each in one
      range, and the ranges ascend without overlap. */
  lemma RequestedOnce(disk: map<int, seq<Byte>>, size: nat, offset: nat)
    ensures var ranges := MissingRanges(disk, 0, size);
            && (Held(ranges, offset) <==> offset < size && !Reusable(disk, PartOf(offset), size))
            && Ascends(ranges, 0, size)
  {
    MissingCovers(disk, 0, size, offset);
  }

  /** With nothing on disk every range of the tiling is requested. */
  lemma {:induction false} NothingReused(start: int, size: nat)
    ensures MissingRanges(map[], start, size) == PartRanges(start, size)
    decreases size - start
  {
    if start < size { NothingReused(start + CHUNK, size); }
  }

  // ----- what is refused -----

  /** Which response to a range request is accepted: the body with exactly the range and
      total asked for, or the whole blob if that was asked for; of the right length.
      And what each other response is refused for. */
  lemma RangeAccepted(server: Server, first: int, last: int, size: nat)
    ensures var response := server(first, last); var r := FetchRange(server, first, last, size);
            match response
            case Failure => r == Err(NoResponse)
            case Partial(range, total, body) =>
              if range.first != first || range.last != last || total != size then r == Err(MismatchingRange)
              else if |body| != last - first + 1 then r == Err(Truncated)
              else r == Ok(body)
            case Whole(body) =>
              if first != 0 || last != size - 1 then r == Err(RangesNotHonoured)
              else if |body| != size then r == Err(Truncated)
              else r == Ok(body)
  {
    match server(first, last)
    case Failure =>
    case Partial(range, total, body) => assert range == Range(range.first, range.last);
    case Whole(body) =>
  }

  /** A part is given up exactly when all three attempts fail, with the last error. */
  lemma GivenUp(registry: Registry, start: int, size: nat)
    ensures var ranges := RangesOf(start, size); var r := Tries(registry, start, size, 0);
            r.Err? <==> forall a: nat :: a < 3 ==> FetchAll(registry(start, a), ranges, size).Err?
    ensures var ranges := RangesOf(start, size); var r := Tries(registry, start, size, 0);
            r.Err? ==> r == FetchAll(registry(start, 2), ranges, size)
  {
    assert Tries(registry, start, size, 2) == FetchAll(registry(start, 2), RangesOf(start, size), size);
    assert registry(start, 0) == registry(start, 0);
  }

  /** A byte is requested exactly when no file of its part's length stands at the start
      of its part, in terms of offsets alone. */
  lemma RequestedExactly(disk: map<int, seq<Byte>>, size: nat, offset: nat)
    ensures Held(MissingRanges(disk, 0, size), offset) <==>
            && offset < size
            && var start := offset - offset % (8 * 1024 * 1024);
               var length := if size - start < 8 * 1024 * 1024 then size - start else 8 * 1024 * 1024;
               !(start in disk && |disk[start]| == length)
  {
    RequestedOnce(disk, size, offset);
    assert PartOf(offset) == offset - offset % CHUNK;
  }

  // ----- the requests of a part -----

  /** Which ranges a part is asked for: the k-th begins k times 4 MiB after the part and
      ends where the next begins, or with the part. */
  lemma {:induction false} InnerExactly(start: int, end: int, k: nat)
    requires k < |InnerRanges(start, end)|
    ensures var first := start + k * (4 * 1024 * 1024); var next := first + 4 * 1024 * 1024;
            InnerRanges(start, end)[k] == Range(first, if next <= end then next - 1 else end)
    decreases k
  {
    if k > 0 { InnerExactly(start + RANGE, end, k - 1); }
  }

  /** The part begins at a multiple of 8 MiB and is asked for up to the next one, or to
      the end of the blob. */
  lemma PartExactly(start: int, size: nat, k: nat)
    requires k < |RangesOf(start, size)|
    ensures var first := start + k * (4 * 1024 * 1024); var next := first + 4 * 1024 * 1024;
            var end := (if start + 8 * 1024 * 1024 < size then start + 8 * 1024 * 1024 else size) - 1;
            RangesOf(start, size)[k] == Range(first, if next <= end then next - 1 else end)
  {
    InnerExactly(start, PartEnd(start, size) - 1, k);
  }
}
