/**
  The local decision logic of the Huawei OBS provider: configuration
  validation, the choice between a single put and a multipart upload, the
  partition of a multipart upload into parts, the checks and range of a
  ranged read, and the paged listing loop.

  The OBS client is not modelled.  Each client call the provider makes is
  recorded as a `ClientCall`, and the client's answers are inputs: a
  predicate saying which calls fail, and for listing the sequence of pages
  the server returns.
 */
module Obs {
  import opened Wrappers
  import opened Objstore

  const MiB: int := 1024 * 1024

  /** Objects up to this size are uploaded with a single put. */
  const MinMultipartUploadSize: int := 100 * MiB

  /** The size of every multipart part but the last. */
  const PartSize: int := 100 * MiB

  // ---------------------------------------------------------------------
  // Configuration
  // ---------------------------------------------------------------------

  datatype Config = Config(bucket: string, endpoint: string, accessKey: string, secretKey: string, maxRetries: int)

  datatype ConfigError = NoEndpoint | NoAccessKey | NoSecretKey | NoAccessKeyAndSecretKey

  /** The configuration checks, in the order the provider makes them. */
  function Validate(conf: Config): (r: Option<ConfigError>)
    ensures r == None <==> conf.endpoint != "" && conf.accessKey != "" && conf.secretKey != ""
    ensures conf.endpoint == "" ==> r == Some(NoEndpoint)
    ensures conf.endpoint != "" && conf.accessKey == "" ==>
      r == Some(if conf.secretKey == "" then NoAccessKeyAndSecretKey else NoAccessKey)
    ensures conf.endpoint != "" && conf.accessKey != "" && conf.secretKey == "" ==> r == Some(NoSecretKey)
  {
    if conf.endpoint == "" then Some(NoEndpoint)
    else if conf.accessKey == "" && conf.secretKey != "" then Some(NoAccessKey)
    else if conf.accessKey != "" && conf.secretKey == "" then Some(NoSecretKey)
    else if conf.accessKey == "" && conf.secretKey == "" then Some(NoAccessKeyAndSecretKey)
    else None
  }

  // ---------------------------------------------------------------------
  // Upload
  // ---------------------------------------------------------------------

  /** What one UploadPart call is asked to send. */
  datatype PartInput = PartInput(partNumber: int, offset: int, partSize: int)

  /** The OBS client calls an upload makes, in order. */
  datatype ClientCall =
    | PutObject
    | InitiateMultipartUpload
    | UploadPart(part: PartInput)
    | CompleteMultipartUpload(partNumbers: seq<int>)
    | AbortMultipartUpload

  datatype UploadError =
    | SizeUnknown(cause: string)
    | SizeNotProvided
    | PutFailed
    | InitFailed
    | PartFailed(partNumber: int)
    | CompleteFailed

  /** The number of parts: the size divided by the part size, rounded up (none for a size of 0 or less). */
  function PartCount(size: int): (n: nat)
    ensures size > 0 ==> (n - 1) * PartSize < size <= n * PartSize
    ensures size <= 0 ==> n == 0
  {
    if size <= 0 then 0 else (size + PartSize - 1) / PartSize
  }

  /**
    The parts as the provider builds them: part i (from 1) starts at
    (i - 1) * PartSize; every part has PartSize bytes except the last,
    which is given size % PartSize.
   */
  function PartPlan(size: int): (parts: seq<PartInput>)
    ensures |parts| == PartCount(size)
  {
    var n := PartCount(size);
    seq(n, i requires 0 <= i < n => PartInput(i + 1, i * PartSize, if i + 1 == n then size % PartSize else PartSize))
  }

  function UploadPartCalls(parts: seq<PartInput>): (calls: seq<ClientCall>)
    ensures |calls| == |parts|
    ensures forall i :: 0 <= i < |parts| ==> calls[i] == UploadPart(parts[i])
  {
    seq(|parts|, i requires 0 <= i < |parts| => UploadPart(parts[i]))
  }

  function PartNumbers(n: nat): (r: seq<int>)
    ensures |r| == n && forall i :: 0 <= i < n ==> r[i] == i + 1
  {
    seq(n, i requires 0 <= i < n => i + 1)
  }

  /** No part of the plan is rejected by the client. */
  predicate PartsSucceed(plan: seq<PartInput>, fails: ClientCall -> bool)
  {
    forall j :: 0 <= j < |plan| ==> !fails(UploadPart(plan[j]))
  }

  /** Part `k` (counted from 0) is the first part of the plan the client rejects. */
  predicate FirstFailingPart(plan: seq<PartInput>, fails: ClientCall -> bool, k: int)
  {
    0 <= k < |plan| && fails(UploadPart(plan[k])) && forall j :: 0 <= j < k ==> !fails(UploadPart(plan[j]))
  }

  /** Either every part goes through or exactly one part is the first to fail. */
  lemma {:induction false} PartOutcomes(plan: seq<PartInput>, fails: ClientCall -> bool)
    ensures PartsSucceed(plan, fails) <==> !exists k :: FirstFailingPart(plan, fails, k)
    ensures forall k, k' :: FirstFailingPart(plan, fails, k) && FirstFailingPart(plan, fails, k') ==> k == k'
  {
    if plan != [] && !PartsSucceed(plan, fails) {
      var rest := plan[..|plan| - 1];
      PartOutcomes(rest, fails);
      if PartsSucceed(rest, fails) {
        assert FirstFailingPart(plan, fails, |plan| - 1);
      } else {
        var k :| FirstFailingPart(rest, fails, k);
        assert FirstFailingPart(plan, fails, k);
      }
    }
  }

  /**
    Uploads the parts one after the other, stopping at the first part the
    client rejects; on success the part numbers are returned in order.
   */
  method MultipartUpload(size: int, fails: ClientCall -> bool) returns (partNumbers: seq<int>, err: Option<UploadError>, calls: seq<ClientCall>)
    ensures err.None? ==>
      calls == UploadPartCalls(PartPlan(size)) && partNumbers == PartNumbers(PartCount(size)) &&
      forall i :: 0 <= i < |calls| ==> !fails(calls[i])
    ensures err.Some? ==>
      exists k :: 0 <= k < PartCount(size) &&
        calls == UploadPartCalls(PartPlan(size)[..k + 1]) && err == Some(PartFailed(k + 1)) &&
        fails(calls[k]) && forall i :: 0 <= i < k ==> !fails(calls[i])
  {
    var plan := PartPlan(size);
    var partSum := PartCount(size);
    var lastPart := size % PartSize;
    partNumbers, err, calls := [], None, [];
    var i := 1;
    while i <= partSum
      invariant 1 <= i <= partSum + 1
      invariant calls == UploadPartCalls(plan[..i - 1])
      invariant partNumbers == PartNumbers(i - 1)
      invariant forall j :: 0 <= j < |calls| ==> !fails(calls[j])
    {
      var partSize := PartSize;
      if i == partSum {
        partSize := lastPart;
      }
      var part := PartInput(i, (i - 1) * PartSize, partSize);
      assert part == plan[i - 1];
      assert plan[..i] == plan[..i - 1] + [part];
      calls := calls + [UploadPart(part)];
      assert calls == UploadPartCalls(plan[..i]);
      if fails(UploadPart(part)) {
        assert calls[i - 1] == UploadPart(part);
        return [], Some(PartFailed(i)), calls;
      }
      partNumbers := partNumbers + [i];
      i := i + 1;
    }
    assert plan[..i - 1] == plan;
  }

  /**
    Upload as written.  A size that cannot be determined or is not
    positive is rejected before any call; up to MinMultipartUploadSize
    bytes go in one put; larger objects are initiated, sent part by part
    and completed.  After a failed part or completion the multipart upload
    is never aborted: the deferred abort tests an error variable that the
    failing calls do not assign (they assign a shadowing one).
   */
  method Upload(size: Result<int, string>, fails: ClientCall -> bool) returns (err: Option<UploadError>, calls: seq<ClientCall>)
    ensures size.Err? ==> err == Some(SizeUnknown(size.error)) && calls == []
    ensures size.Ok? && size.value <= 0 ==> err == Some(SizeNotProvided) && calls == []
    ensures size.Ok? && 0 < size.value <= MinMultipartUploadSize ==>
      calls == [PutObject] && err == (if fails(PutObject) then Some(PutFailed) else None)
    ensures size.Ok? && size.value > MinMultipartUploadSize ==>
      |calls| > 0 && calls[0] == InitiateMultipartUpload && AbortMultipartUpload !in calls
    ensures size.Ok? && size.value > MinMultipartUploadSize && fails(InitiateMultipartUpload) ==>
      err == Some(InitFailed) && calls == [InitiateMultipartUpload]
    ensures size.Ok? && size.value > MinMultipartUploadSize && !fails(InitiateMultipartUpload) ==>
      forall k :: FirstFailingPart(PartPlan(size.value), fails, k) ==>
        err == Some(PartFailed(k + 1)) &&
        calls == [InitiateMultipartUpload] + UploadPartCalls(PartPlan(size.value)[..k + 1])
    ensures size.Ok? && size.value > MinMultipartUploadSize && !fails(InitiateMultipartUpload) &&
            PartsSucceed(PartPlan(size.value), fails) ==>
      var complete := CompleteMultipartUpload(PartNumbers(PartCount(size.value)));
      err == (if fails(complete) then Some(CompleteFailed) else None) &&
      calls == [InitiateMultipartUpload] + UploadPartCalls(PartPlan(size.value)) + [complete]
    ensures size.Ok? && size.value > 0 ==> (err.None? <==> forall i :: 0 <= i < |calls| ==> !fails(calls[i]))
    ensures size.Ok? && size.value > MinMultipartUploadSize && err.None? ==>
      calls == [InitiateMultipartUpload] + UploadPartCalls(PartPlan(size.value)) +
               [CompleteMultipartUpload(PartNumbers(PartCount(size.value)))]
  {
    if size.Err? {
      return Some(SizeUnknown(size.error)), [];
    }
    var n := size.value;
    if n <= 0 {
      return Some(SizeNotProvided), [];
    }
    if n <= MinMultipartUploadSize {
      calls := [PutObject];
      assert calls[0] == PutObject;
      err := if fails(PutObject) then Some(PutFailed) else None;
      return;
    }
    calls := [InitiateMultipartUpload];
    if fails(InitiateMultipartUpload) {
      return Some(InitFailed), calls;
    }
    var partNumbers, partErr, partCalls := MultipartUpload(n, fails);
    calls := calls + partCalls;
    if partErr.Some? {
      ghost var k :| 0 <= k < |partCalls| && fails(partCalls[k]);
      assert calls[k + 1] == partCalls[k] && fails(calls[k + 1]);
      return partErr, calls;
    }
    var complete := CompleteMultipartUpload(partNumbers);
    calls := calls + [complete];
    if fails(complete) {
      assert calls[|calls| - 1] == complete;
      return Some(CompleteFailed), calls;
    }
    return None, calls;
  }

  /**
    The evidently intended upload: identical, except that a failure after
    the multipart upload was initiated aborts it.
   */
  method UploadWithAbort(size: Result<int, string>, fails: ClientCall -> bool) returns (err: Option<UploadError>, calls: seq<ClientCall>)
    ensures size.Err? ==> err == Some(SizeUnknown(size.error)) && calls == []
    ensures size.Ok? && size.value <= 0 ==> err == Some(SizeNotProvided) && calls == []
    ensures size.Ok? && 0 < size.value <= MinMultipartUploadSize ==>
      calls == [PutObject] && err == (if fails(PutObject) then Some(PutFailed) else None)
    ensures size.Ok? && size.value > MinMultipartUploadSize ==> |calls| > 0 && calls[0] == InitiateMultipartUpload
    ensures size.Ok? && size.value > MinMultipartUploadSize && fails(InitiateMultipartUpload) ==>
      err == Some(InitFailed) && calls == [InitiateMultipartUpload]
    ensures size.Ok? && size.value > MinMultipartUploadSize && !fails(InitiateMultipartUpload) ==>
      forall k :: FirstFailingPart(PartPlan(size.value), fails, k) ==>
        err == Some(PartFailed(k + 1)) &&
        calls == [InitiateMultipartUpload] + UploadPartCalls(PartPlan(size.value)[..k + 1]) + [AbortMultipartUpload]
    ensures size.Ok? && size.value > MinMultipartUploadSize && !fails(InitiateMultipartUpload) &&
            PartsSucceed(PartPlan(size.value), fails) ==>
      var complete := CompleteMultipartUpload(PartNumbers(PartCount(size.value)));
      err == (if fails(complete) then Some(CompleteFailed) else None) &&
      calls == [InitiateMultipartUpload] + UploadPartCalls(PartPlan(size.value)) + [complete] +
        (if fails(complete) then [AbortMultipartUpload] else [])
    ensures size.Ok? && size.value > 0 ==> (err.None? <==> forall i :: 0 <= i < |calls| ==> !fails(calls[i]))
    ensures size.Ok? && size.value > MinMultipartUploadSize && err.Some? && err != Some(InitFailed) ==>
      |calls| > 0 && calls[|calls| - 1] == AbortMultipartUpload
    ensures size.Ok? && size.value > MinMultipartUploadSize && err.None? ==>
      calls == [InitiateMultipartUpload] + UploadPartCalls(PartPlan(size.value)) +
               [CompleteMultipartUpload(PartNumbers(PartCount(size.value)))]
  {
    if size.Err? {
      return Some(SizeUnknown(size.error)), [];
    }
    var n := size.value;
    if n <= 0 {
      return Some(SizeNotProvided), [];
    }
    if n <= MinMultipartUploadSize {
      calls := [PutObject];
      assert calls[0] == PutObject;
      err := if fails(PutObject) then Some(PutFailed) else None;
      return;
    }
    calls := [InitiateMultipartUpload];
    if fails(InitiateMultipartUpload) {
      return Some(InitFailed), calls;
    }
    var partNumbers, partErr, partCalls := MultipartUpload(n, fails);
    calls := calls + partCalls;
    if partErr.Some? {
      ghost var k :| 0 <= k < |partCalls| && fails(partCalls[k]);
      assert (calls + [AbortMultipartUpload])[k + 1] == partCalls[k] && fails(partCalls[k]);
      return partErr, calls + [AbortMultipartUpload];
    }
    var complete := CompleteMultipartUpload(partNumbers);
    calls := calls + [complete];
    if fails(complete) {
      assert (calls + [AbortMultipartUpload])[|calls| - 1] == complete;
      return Some(CompleteFailed), calls + [AbortMultipartUpload];
    }
    return None, calls;
  }

  /** Parts are numbered 1, 2, ... in order and part i starts at (i - 1) * PartSize. */
  lemma PartPlanLayout(size: int)
    ensures forall i :: 0 <= i < |PartPlan(size)| ==>
      PartPlan(size)[i].partNumber == i + 1 && PartPlan(size)[i].offset == i * PartSize
    ensures forall i :: 0 <= i < |PartPlan(size)| - 1 ==> PartPlan(size)[i].partSize == PartSize
    ensures |PartPlan(size)| > 0 ==> PartPlan(size)[|PartPlan(size)| - 1].partSize == size % PartSize
  {
  }

  function SumPartSizes(parts: seq<PartInput>): int
  {
    if parts == [] then 0 else SumPartSizes(parts[..|parts| - 1]) + parts[|parts| - 1].partSize
  }

  lemma {:induction false} SumFullParts(size: int, k: nat)
    requires k < PartCount(size)
    ensures SumPartSizes(PartPlan(size)[..k]) == k * PartSize
  {
    if k > 0 {
      assert PartPlan(size)[..k][..k - 1] == PartPlan(size)[..k - 1];
      SumFullParts(size, k - 1);
    }
  }

  /**
    The declared part sizes add up to the object size unless the size is
    an exact multiple of PartSize, in which case the last part is declared
    with size 0 and the total falls short by PartSize.
   */
  lemma PartSizesTotal(size: int)
    requires size > 0
    ensures size % PartSize != 0 ==> SumPartSizes(PartPlan(size)) == size
    ensures size % PartSize == 0 ==> SumPartSizes(PartPlan(size)) == size - PartSize
  {
    var plan := PartPlan(size);
    var n := |plan|;
    assert plan[..n - 1] == plan[..n][..n - 1];
    assert plan[..n] == plan;
    SumFullParts(size, n - 1);
    assert SumPartSizes(plan) == (n - 1) * PartSize + size % PartSize;
    PartCountDivision(size);
  }

  /** How the part count relates to the quotient and remainder of the size by PartSize. */
  lemma PartCountDivision(size: int)
    requires size > 0
    ensures size % PartSize != 0 ==> (PartCount(size) - 1) * PartSize + size % PartSize == size
    ensures size % PartSize == 0 ==> (PartCount(size) - 1) * PartSize == size - PartSize
  {
    var n := PartCount(size);
    var q, r := size / PartSize, size % PartSize;
    assert size == q * PartSize + r;
    assert (n - 1) * PartSize < q * PartSize + r <= n * PartSize;
    if r != 0 {
      assert q * PartSize < size < (q + 1) * PartSize;
      assert n - 1 == q;
    } else {
      assert n == q;
    }
  }

  /** An object larger than the single-put limit is sent in at least two parts. */
  lemma MultipartHasTwoParts(size: int)
    requires size > MinMultipartUploadSize
    ensures PartCount(size) >= 2
  {
  }

  // ---------------------------------------------------------------------
  // Ranged reads
  // ---------------------------------------------------------------------

  /** Go's unicode.IsSpace. */
  predicate IsSpace(c: char)
  {
    c == '\t' || c == '\n' || c == '\U{000B}' || c == '\U{000C}' || c == '\r' || c == ' ' ||
    c == '\U{0085}' || c == '\U{00A0}' || c == '\U{1680}' || ('\U{2000}' <= c <= '\U{200A}') ||
    c == '\U{2028}' || c == '\U{2029}' || c == '\U{202F}' || c == '\U{205F}' || c == '\U{3000}'
  }

  /** strings.TrimSpace(name) == "": the name is empty or all white space. */
  predicate Blank(name: string) { forall i :: 0 <= i < |name| ==> IsSpace(name[i]) }

  datatype RangeError = EmptyName | IncorrectOffset

  /** The GetObject request of a ranged read: the key and an inclusive byte range. */
  datatype GetObjectInput = GetObjectInput(key: string, rangeStart: int, rangeEnd: int)

  /**
    A ranged read rejects a blank name, then a negative offset; the range
    runs from the offset to MaxInt64 when the length is -1, and otherwise
    to offset + length - 1, computed in int64.
   */
  function GetRangeInput(name: string, off: int, length: int): (r: Result<GetObjectInput, RangeError>)
    requires IsInt64(off) && IsInt64(length)
    ensures Blank(name) ==> r == Err(EmptyName)
    ensures !Blank(name) && off < 0 ==> r == Err(IncorrectOffset)
    ensures r.Ok? ==> r.value.key == name && r.value.rangeStart == off
  {
    if Blank(name) then Err(EmptyName)
    else if off < 0 then Err(IncorrectOffset)
    else Ok(GetObjectInput(name, off, if length == -1 then MaxInt64 else Wrap64(off + length - 1)))
  }

  /**
    A read of `length` bytes whose last byte fits in int64 asks for exactly
    `length` byte positions; past MaxInt64 the end wraps to a negative
    number; a read to the end asks for everything from the offset.
   */
  lemma GetRangeCoversLength(name: string, off: int, length: int)
    requires IsInt64(off) && IsInt64(length)
    requires !Blank(name) && off >= 0
    ensures GetRangeInput(name, off, length).Ok?
    ensures length != -1 && IsInt64(off + length - 1) ==> GetRangeInput(name, off, length).value.rangeEnd - off + 1 == length
    ensures length != -1 && off + length - 1 > MaxInt64 ==>
      GetRangeInput(name, off, length).value.rangeEnd == off + length - 1 - (MaxUint64 + 1) < 0
    ensures length != -1 && off + length - 1 < MinInt64 ==> off == 0 && GetRangeInput(name, off, length).value.rangeEnd == MaxInt64
    ensures length == -1 ==> GetRangeInput(name, off, length).value.rangeEnd == MaxInt64
  {
  }

  /** Get reads the whole object: the range from 0 to MaxInt64. */
  lemma GetReadsWholeObject(name: string)
    requires !Blank(name)
    ensures GetRangeInput(name, 0, -1) == Ok(GetObjectInput(name, 0, MaxInt64))
  {
  }

  // ---------------------------------------------------------------------
  // Listing
  // ---------------------------------------------------------------------

  const SupportedIterOptions: seq<IterOptionType> := [Recursive]

  /** One ListObjects request. */
  datatype ListObjectsInput = ListObjectsInput(prefix: string, delimiter: string, marker: string)

  /** One page of a listing as the server answers it. */
  datatype ListPage = ListPage(contents: seq<string>, commonPrefixes: seq<string>, isTruncated: bool, nextMarker: string)

  datatype IterError =
    | UnsupportedIterOption(option: IterOptionType)
    | ListFailed(cause: string)
    | ObjectCallbackFailed(key: string, cause: string)
    | TopDirCallbackFailed(dir: string, cause: string)

  /** The server eventually answers with an error or with a page that is not truncated. */
  predicate ListingEnds(pages: seq<Result<ListPage, string>>)
  {
    pages != [] && (pages[0].Err? || !pages[0].value.isTruncated || ListingEnds(pages[1..]))
  }

  /** The outcome of a listing: the names passed to the callback, the error, and how many pages were requested. */
  datatype IterRun = IterRun(visited: seq<string>, err: Option<IterError>, requested: nat)

  /** Visiting one page: its objects first, then its common prefixes. */
  function PageVisit(page: ListPage, f: string -> Option<string>): (seq<string>, Option<IterError>)
  {
    var objects := Visit(page.contents, f);
    if objects.1.Some? then
      (objects.0, Some(ObjectCallbackFailed(objects.0[|objects.0| - 1], objects.1.value)))
    else
      var dirs := Visit(page.commonPrefixes, f);
      (objects.0 + dirs.0,
       if dirs.1.Some? then Some(TopDirCallbackFailed(dirs.0[|dirs.0| - 1], dirs.1.value)) else None)
  }

  /** The listing over the server's pages: page after page until an error or an untruncated page. */
  function Listing(pages: seq<Result<ListPage, string>>, f: string -> Option<string>): (r: IterRun)
    requires ListingEnds(pages)
    ensures 1 <= r.requested <= |pages|
  {
    match pages[0]
    case Err(e) => IterRun([], Some(ListFailed(e)), 1)
    case Ok(page) =>
      var (v, e) := PageVisit(page, f);
      if e.Some? || !page.isTruncated then IterRun(v, e, 1)
      else
        var rest := Listing(pages[1..], f);
        IterRun(v + rest.visited, rest.err, 1 + rest.requested)
  }

  /** The marker of request i: empty for the first, then the previous page's NextMarker. */
  function MarkerOf(pages: seq<Result<ListPage, string>>, i: nat): string
    requires i <= |pages| && forall j :: 0 <= j < i ==> pages[j].Ok?
  {
    if i == 0 then "" else pages[i - 1].value.nextMarker
  }

  /** Calls `f` on each name in order, stopping at the first error. */
  method VisitEach(names: seq<string>, f: string -> Option<string>) returns (visited: seq<string>, err: Option<string>)
    ensures (visited, err) == Visit(names, f)
  {
    visited := [];
    var j := 0;
    while j < |names|
      invariant 0 <= j <= |names|
      invariant Visit(names[..j], f) == (visited, None)
    {
      var name := names[j];
      assert names[..j + 1] == names[..j] + [name];
      VisitSnoc(names[..j], name, f);
      visited := visited + [name];
      var e := f(name);
      if e.Some? {
        VisitAppend(names[..j + 1], names[j + 1..], f);
        assert names[..j + 1] + names[j + 1..] == names;
        return visited, e;
      }
      j := j + 1;
    }
    assert names[..j] == names;
    return visited, None;
  }

  /** Visits the objects and then the common prefixes of one page. */
  method VisitPage(page: ListPage, f: string -> Option<string>) returns (visited: seq<string>, err: Option<IterError>)
    ensures (visited, err) == PageVisit(page, f)
  {
    var objects, objectErr := VisitEach(page.contents, f);
    if objectErr.Some? {
      return objects, Some(ObjectCallbackFailed(objects[|objects| - 1], objectErr.value));
    }
    var dirs, dirErr := VisitEach(page.commonPrefixes, f);
    visited := objects + dirs;
    if dirErr.Some? {
      return visited, Some(TopDirCallbackFailed(dirs[|dirs| - 1], dirErr.value));
    }
    return visited, None;
  }

  /**
    Lists `dir` page by page: every request carries the normalised prefix
    and the delimiter ("/" unless Recursive is requested, then ""), the
    first request has no marker and each later one the previous page's
    NextMarker; requests stop at the first error or untruncated page.
   */
  method Iter(dir: string, options: seq<IterOptionType>, pages: seq<Result<ListPage, string>>, f: string -> Option<string>)
    returns (visited: seq<string>, err: Option<IterError>, requests: seq<ListObjectsInput>)
    requires ListingEnds(pages)
    ensures visited == Listing(pages, f).visited && err == Listing(pages, f).err
    ensures |requests| == Listing(pages, f).requested
    ensures forall i :: 0 <= i < |requests| ==>
      (forall j :: 0 <= j < i ==> pages[j].Ok?) &&
      requests[i] == ListObjectsInput(DirPrefix(dir), if Recursive in options then "" else DirDelim, MarkerOf(pages, i))
  {
    var prefix := DirPrefix(dir);
    var delimiter := DirDelim;
    if ApplyIterOptions(options).recursive {
      delimiter := "";
    }
    assert delimiter == if Recursive in options then "" else DirDelim;
    var marker := "";
    visited, err, requests := [], None, [];
    var i := 0;
    var done := false;
    assert Resumes(pages, f, visited, i) by {
      assert pages[0..] == pages;
    }
    while !done
      invariant 0 <= i <= |pages|
      invariant forall j :: 0 <= j < i ==> pages[j].Ok?
      invariant !done ==> marker == MarkerOf(pages, i) && |requests| == i
      invariant done ==> |requests| == i + 1 && i < |pages| && forall j :: 0 <= j < i + 1 ==> pages[j].Ok? || j == i
      invariant requests == Requests(prefix, delimiter, pages, |requests|)
      invariant !done ==> Resumes(pages, f, visited, i)
      invariant done ==> Listing(pages, f) == IterRun(visited, err, |requests|)
      decreases |pages| - i, if done then 0 else 1
    {
      RequestsStep(prefix, delimiter, pages, i);
      requests := requests + [ListObjectsInput(prefix, delimiter, marker)];
      ListingResume(pages, f, visited, i);
      match pages[i]
      case Err(e) => {
        err := Some(ListFailed(e));
        done := true;
      }
      case Ok(page) => {
        var pageVisited, pageErr := VisitPage(page, f);
        var before := visited;
        visited := visited + pageVisited;
        if pageErr.Some? || !page.isTruncated {
          err := pageErr;
          done := true;
        } else {
          assert pages[i].Ok?;
          marker := page.nextMarker;
          i := i + 1;
        }
      }
    }
    RequestsMeaning(prefix, delimiter, pages, |requests|);
  }

  /** The first n list requests of a listing: each carries the marker MarkerOf gives it. */
  function Requests(prefix: string, delimiter: string, pages: seq<Result<ListPage, string>>, n: nat): seq<ListObjectsInput>
    requires n <= |pages| + 1
    requires forall j :: 0 <= j < n - 1 ==> pages[j].Ok?
  {
    seq(n, r requires 0 <= r < n => ListObjectsInput(prefix, delimiter, MarkerOf(pages, r)))
  }

  /** Request n follows the first n. */
  lemma RequestsStep(prefix: string, delimiter: string, pages: seq<Result<ListPage, string>>, n: nat)
    requires n < |pages| && forall j :: 0 <= j < n ==> pages[j].Ok?
    ensures Requests(prefix, delimiter, pages, n + 1) ==
      Requests(prefix, delimiter, pages, n) + [ListObjectsInput(prefix, delimiter, MarkerOf(pages, n))]
  {
  }

  /** Each of the first n requests asks for the page after the ones already received. */
  lemma RequestsMeaning(prefix: string, delimiter: string, pages: seq<Result<ListPage, string>>, n: nat)
    requires n <= |pages| + 1 && forall j :: 0 <= j < n - 1 ==> pages[j].Ok?
    ensures forall r :: 0 <= r < n ==>
      (forall j :: 0 <= j < r ==> pages[j].Ok?) &&
      Requests(prefix, delimiter, pages, n)[r] == ListObjectsInput(prefix, delimiter, MarkerOf(pages, r))
  {
  }

  /**
    A listing that has requested the pages before i and passed `visited`
    to the callback finishes as the listing of the pages from i on would.
   */
  ghost predicate Resumes(pages: seq<Result<ListPage, string>>, f: string -> Option<string>, visited: seq<string>, i: nat)
  {
    ListingEnds(pages) && i < |pages| && ListingEnds(pages[i..]) &&
    Listing(pages, f) == IterRun(visited + Listing(pages[i..], f).visited,
                                 Listing(pages[i..], f).err, i + Listing(pages[i..], f).requested)
  }

  /** One step of the listing loop: page i ends it with an error, ends it, or hands over to page i + 1. */
  lemma ListingResume(pages: seq<Result<ListPage, string>>, f: string -> Option<string>, visited: seq<string>, i: nat)
    requires Resumes(pages, f, visited, i)
    ensures pages[i].Err? ==> Listing(pages, f) == IterRun(visited, Some(ListFailed(pages[i].error)), i + 1)
    ensures pages[i].Ok? && (PageVisit(pages[i].value, f).1.Some? || !pages[i].value.isTruncated) ==>
      Listing(pages, f) == IterRun(visited + PageVisit(pages[i].value, f).0, PageVisit(pages[i].value, f).1, i + 1)
    ensures pages[i].Ok? && PageVisit(pages[i].value, f).1.None? && pages[i].value.isTruncated ==>
      Resumes(pages, f, visited + PageVisit(pages[i].value, f).0, i + 1)
  {
    ListingAt(pages, i, f);
    if pages[i].Err? {
      assert visited + [] == visited;
    } else if PageVisit(pages[i].value, f).1.None? && pages[i].value.isTruncated {
      var rest := Listing(pages[i + 1..], f);
      ConcatAssoc(visited, PageVisit(pages[i].value, f).0, rest.visited);
    }
  }

  /** The listing from page i on, by what page i holds. */
  lemma ListingAt(pages: seq<Result<ListPage, string>>, i: nat, f: string -> Option<string>)
    requires i < |pages| && ListingEnds(pages[i..])
    ensures pages[i].Err? ==> Listing(pages[i..], f) == IterRun([], Some(ListFailed(pages[i].error)), 1)
    ensures pages[i].Ok? && (PageVisit(pages[i].value, f).1.Some? || !pages[i].value.isTruncated) ==>
      Listing(pages[i..], f) == IterRun(PageVisit(pages[i].value, f).0, PageVisit(pages[i].value, f).1, 1)
    ensures pages[i].Ok? && PageVisit(pages[i].value, f).1.None? && pages[i].value.isTruncated ==>
      ListingEnds(pages[i + 1..]) &&
      Listing(pages[i..], f) == IterRun(PageVisit(pages[i].value, f).0 + Listing(pages[i + 1..], f).visited,
                                        Listing(pages[i + 1..], f).err, 1 + Listing(pages[i + 1..], f).requested)
  {
    assert pages[i..][0] == pages[i] && pages[i..][1..] == pages[i + 1..];
  }

  /** With Recursive the listing is flat (no delimiter); otherwise it is one level deep. */
  lemma DelimiterChoice(options: seq<IterOptionType>)
    ensures (if ApplyIterOptions(options).recursive then "" else DirDelim) == (if Recursive in options then "" else "/")
  {
  }

  /** When every page is answered and every callback succeeds, the listing stops exactly at the first untruncated page. */
  lemma {:induction false} ListingStopsAtLastPage(pages: seq<Result<ListPage, string>>, f: string -> Option<string>, last: nat)
    requires last < |pages|
    requires forall j :: 0 <= j <= last ==> pages[j].Ok? && PageVisit(pages[j].value, f).1.None?
    requires forall j :: 0 <= j < last ==> pages[j].value.isTruncated
    requires !pages[last].value.isTruncated
    ensures ListingEnds(pages)
    ensures Listing(pages, f).requested == last + 1 && Listing(pages, f).err == None
  {
    if last > 0 {
      ListingStopsAtLastPage(pages[1..], f, last - 1);
    }
  }

  /**
    IterWithAttributes accepts only the Recursive option, checked before
    anything is listed, and then lists by name with no modification time.
   */
  method IterWithAttributes(dir: string, options: seq<IterOptionType>, pages: seq<Result<ListPage, string>>,
                            f: IterObjectAttributes -> Option<string>)
    returns (visited: seq<string>, err: Option<IterError>, requests: seq<ListObjectsInput>)
    requires ListingEnds(pages)
    ensures FirstUnsupported(SupportedIterOptions, options).Some? ==>
      err == Some(UnsupportedIterOption(FirstUnsupported(SupportedIterOptions, options).value)) && requests == [] && visited == []
    ensures FirstUnsupported(SupportedIterOptions, options).None? ==>
      var g := (name: string) => f(IterObjectAttributes(name, None));
      visited == Listing(pages, g).visited && err == Listing(pages, g).err && |requests| == Listing(pages, g).requested
  {
    var unsupported := FirstUnsupported(SupportedIterOptions, options);
    if unsupported.Some? {
      return [], Some(UnsupportedIterOption(unsupported.value)), [];
    }
    visited, err, requests := Iter(dir, options, pages, (name: string) => f(IterObjectAttributes(name, None)));
  }

  /** Any requested UpdatedAt option makes IterWithAttributes fail before listing. */
  lemma UpdatedAtRejected(options: seq<IterOptionType>)
    requires UpdatedAt in options
    ensures FirstUnsupported(SupportedIterOptions, options).Some?
  {
  }
}
