/**
  The local logic of the S3 provider: the bucket-lookup setting and its
  YAML names, configuration validation, the settings a bucket is built
  with, the byte range of a ranged read, the listing filter, and the part
  size of an upload.  The minio client, credentials and the encryption
  objects are not modelled; where the provider hands them a value, the
  model returns that value.
 */
module S3 {
  import opened Wrappers
  import opened Objstore

  // ---------------------------------------------------------------------
  // Bucket lookup type
  // ---------------------------------------------------------------------

  datatype BucketLookupType = AutoLookup | VirtualHostLookup | PathLookup

  /** The minio lookup kinds the three settings select. */
  datatype MinioLookup = BucketLookupAuto | BucketLookupDNS | BucketLookupPath

  /** The YAML name of a lookup type. */
  function LookupName(t: BucketLookupType): (s: string)
    ensures s in {"auto", "virtual-hosted", "path"}
  {
    match t
    case AutoLookup => "auto"
    case VirtualHostLookup => "virtual-hosted"
    case PathLookup => "path"
  }

  /** The minio lookup kind a setting selects: each setting its own kind. */
  function MinioType(t: BucketLookupType): (m: MinioLookup)
    ensures t == AutoLookup <==> m == BucketLookupAuto
    ensures t == VirtualHostLookup <==> m == BucketLookupDNS
    ensures t == PathLookup <==> m == BucketLookupPath
  {
    match t
    case AutoLookup => BucketLookupAuto
    case VirtualHostLookup => BucketLookupDNS
    case PathLookup => BucketLookupPath
  }

  /** The lookup type a YAML name denotes; any other name is rejected. */
  function ParseLookupType(s: string): (r: Result<BucketLookupType, string>)
    ensures r.Ok? <==> s in {"auto", "virtual-hosted", "path"}
    ensures r.Err? ==> r.error == "unsupported bucket lookup type: " + s
  {
    if s == "auto" then Ok(AutoLookup)
    else if s == "virtual-hosted" then Ok(VirtualHostLookup)
    else if s == "path" then Ok(PathLookup)
    else Err("unsupported bucket lookup type: " + s)
  }

  /** Reading back the name of a lookup type gives that lookup type. */
  lemma LookupNameRoundTrip(t: BucketLookupType)
    ensures ParseLookupType(LookupName(t)) == Ok(t)
  {
  }

  /** Distinct lookup types have distinct names, and every accepted name is the name of what it parses to. */
  lemma LookupNameInjective(s: string)
    requires ParseLookupType(s).Ok?
    ensures LookupName(ParseLookupType(s).value) == s
  {
  }

  /** The target of an UnmarshalYAML call: the field the decoded value is written to. */
  class LookupTypeField {
    var value: BucketLookupType

    constructor (v: BucketLookupType)
      ensures value == v
    {
      value := v;
    }

    /**
      Decodes a YAML scalar into the field.  A decoding failure of the
      scalar itself is passed through; an unknown name is rejected; in
      both cases the field keeps its value.
     */
    method UnmarshalYAML(scalar: Result<string, string>) returns (err: Option<string>)
      modifies this
      ensures scalar.Err? ==> err == Some(scalar.error) && value == old(value)
      ensures scalar.Ok? && ParseLookupType(scalar.value).Err? ==>
        err == Some(ParseLookupType(scalar.value).error) && value == old(value)
      ensures scalar.Ok? && ParseLookupType(scalar.value).Ok? ==>
        err == None && value == ParseLookupType(scalar.value).value
    {
      if scalar.Err? {
        return Some(scalar.error);
      }
      match ParseLookupType(scalar.value)
      case Ok(t) => {
        value := t;
        return None;
      }
      case Err(e) => {
        return Some(e);
      }
    }
  }

  // ---------------------------------------------------------------------
  // Configuration
  // ---------------------------------------------------------------------

  const SSEKMS: string := "SSE-KMS"
  const SSEC: string := "SSE-C"
  const SSES3: string := "SSE-S3"

  datatype SSEConfig = SSEConfig(sseType: string, kmsKeyId: string, kmsEncryptionContext: Option<map<string, string>>, encryptionKey: string)

  datatype Config = Config(
    bucket: string,
    endpoint: string,
    awsSdkAuth: bool,
    accessKey: string,
    secretKey: string,
    putUserMetadata: map<string, string>,
    listObjectsVersion: string,
    bucketLookupType: BucketLookupType,
    sendContentMd5: bool,
    disableMultipart: bool,
    partSize: int,
    sseConfig: SSEConfig)

  datatype ConfigError =
    | NoEndpoint
    | SdkAuthWithAccessKey
    | NoAccessKey
    | NoSecretKey
    | SseCWithoutKey
    | SseKmsWithoutKeyId

  /** The configuration checks; the first that fails is reported. */
  function Validate(conf: Config): (r: Option<ConfigError>)
    ensures r == Some(NoEndpoint) <==> conf.endpoint == ""
    ensures r == Some(SdkAuthWithAccessKey) <==> conf.endpoint != "" && conf.awsSdkAuth && conf.accessKey != ""
    ensures r == Some(NoAccessKey) <==> conf.endpoint != "" && conf.accessKey == "" && conf.secretKey != ""
    ensures r == Some(NoSecretKey) <==>
      conf.endpoint != "" && !(conf.awsSdkAuth && conf.accessKey != "") && conf.accessKey != "" && conf.secretKey == ""
    ensures r == Some(SseCWithoutKey) <==>
      conf.endpoint != "" && !(conf.awsSdkAuth && conf.accessKey != "") &&
      (conf.accessKey == "" <==> conf.secretKey == "") &&
      conf.sseConfig.sseType == SSEC && conf.sseConfig.encryptionKey == ""
    ensures r == Some(SseKmsWithoutKeyId) <==>
      conf.endpoint != "" && !(conf.awsSdkAuth && conf.accessKey != "") &&
      (conf.accessKey == "" <==> conf.secretKey == "") &&
      conf.sseConfig.sseType == SSEKMS && conf.sseConfig.kmsKeyId == ""
    ensures r == None <==>
      conf.endpoint != "" && !(conf.awsSdkAuth && conf.accessKey != "") &&
      (conf.accessKey == "" <==> conf.secretKey == "") &&
      !(conf.sseConfig.sseType == SSEC && conf.sseConfig.encryptionKey == "") &&
      !(conf.sseConfig.sseType == SSEKMS && conf.sseConfig.kmsKeyId == "")
  {
    if conf.endpoint == "" then Some(NoEndpoint)
    else if conf.awsSdkAuth && conf.accessKey != "" then Some(SdkAuthWithAccessKey)
    else if conf.accessKey == "" && conf.secretKey != "" then Some(NoAccessKey)
    else if conf.accessKey != "" && conf.secretKey == "" then Some(NoSecretKey)
    else if conf.sseConfig.sseType == SSEC && conf.sseConfig.encryptionKey == "" then Some(SseCWithoutKey)
    else if conf.sseConfig.sseType == SSEKMS && conf.sseConfig.kmsKeyId == "" then Some(SseKmsWithoutKeyId)
    else None
  }

  /** The test configuration needs an endpoint and both keys. */
  function ValidateForTests(conf: Config): (r: Option<string>)
    ensures r.None? <==> conf.endpoint != "" && conf.accessKey != "" && conf.secretKey != ""
  {
    if conf.endpoint == "" || conf.accessKey == "" || conf.secretKey == "" then
      Some("insufficient s3 test configuration information")
    else None
  }

  /** A configuration good enough for the tests passes validation unless its encryption settings are incomplete or it also asks for SDK authentication. */
  lemma TestConfigIsValid(conf: Config)
    requires ValidateForTests(conf).None? && !conf.awsSdkAuth
    requires conf.sseConfig.sseType != SSEC && conf.sseConfig.sseType != SSEKMS
    ensures Validate(conf).None?
  {
  }

  // ---------------------------------------------------------------------
  // Bucket construction
  // ---------------------------------------------------------------------

  /** The server-side encryption a bucket applies by default. */
  datatype SSE =
    | NoSSE
    | SSEKms(keyId: string, context: map<string, string>)
    | SSECustomer(key: seq<Byte>)
    | SSEManaged

  /** The settings a constructed bucket holds, apart from the client. */
  datatype BucketSettings = BucketSettings(
    name: string,
    defaultSSE: SSE,
    putUserMetadata: map<string, string>,
    storageClass: string,
    disableMultipart: bool,
    partSize: int,
    listObjectsV1: bool,
    sendContentMd5: bool,
    lookup: MinioLookup)

  datatype NewBucketError =
    | Invalid(configError: ConfigError)
    | ReadKeyFailed(cause: string)
    | UnsupportedSSEType(sseType: string)
    | UnsupportedListVersion(version: string)

  const AmzStorageClass: string := "X-Amz-Storage-Class"

  function AsciiLower(c: char): (l: char)
    ensures !('A' <= l <= 'Z')
  {
    if 'A' <= c <= 'Z' then (c as int + 32) as char else c
  }

  /** strings.ToLower, on the letters that can lower to a letter of the storage-class header name. */
  function Lower(s: string): string
  {
    seq(|s|, i requires 0 <= i < |s| => AsciiLower(s[i]))
  }

  predicate IsStorageClassKey(k: string)
  {
    Lower(k) == Lower(AmzStorageClass)
  }

  /** Whether `a` and `b` spell the same word, an ASCII letter in either case matching itself. */
  predicate SameUpToCase(a: string, b: string)
  {
    |a| == |b| &&
    forall i :: 0 <= i < |a| ==>
      a[i] == b[i] || ('A' <= a[i] <= 'Z' && b[i] as int == a[i] as int + 32) || ('A' <= b[i] <= 'Z' && a[i] as int == b[i] as int + 32)
  }

  /** A metadata key names the storage class exactly when it is X-Amz-Storage-Class in any mix of letter cases. */
  lemma StorageClassKeyMeaning(k: string)
    ensures IsStorageClassKey(k) <==> SameUpToCase(k, AmzStorageClass)
  {
    var l := Lower(AmzStorageClass);
    if IsStorageClassKey(k) {
      forall i | 0 <= i < |k|
        ensures k[i] == AmzStorageClass[i] || ('A' <= k[i] <= 'Z' && AmzStorageClass[i] as int == k[i] as int + 32) ||
                ('A' <= AmzStorageClass[i] <= 'Z' && k[i] as int == AmzStorageClass[i] as int + 32)
      {
        assert Lower(k)[i] == l[i];
      }
    }
    if SameUpToCase(k, AmzStorageClass) {
      assert Lower(k) == l by {
        forall i | 0 <= i < |k| ensures Lower(k)[i] == l[i] {
        }
      }
    }
  }

  /**
    Removes the first metadata key (in Go's unspecified map order) whose
    lower-case spelling is "x-amz-storage-class" and returns its value as
    the storage class; without such a key nothing changes and the class
    is empty.
   */
  method ExtractStorageClass(metadata: map<string, string>) returns (rest: map<string, string>, storageClass: string)
    ensures (forall k :: k in metadata ==> !IsStorageClassKey(k)) ==> rest == metadata && storageClass == ""
    ensures (exists k :: k in metadata && IsStorageClassKey(k)) ==>
      exists k :: k in metadata && IsStorageClassKey(k) && rest == metadata - {k} && storageClass == metadata[k]
  {
    rest, storageClass := metadata, "";
    var unvisited := metadata.Keys;
    while unvisited != {}
      invariant unvisited <= metadata.Keys
      invariant forall k :: k in metadata.Keys - unvisited ==> !IsStorageClassKey(k)
      decreases unvisited
    {
      var k :| k in unvisited;
      if IsStorageClassKey(k) {
        return metadata - {k}, metadata[k];
      }
      unvisited := unvisited - {k};
    }
  }

  /** An SSE-C key file, when one is needed, was read. */
  predicate SseKeyRead(conf: Config, keyFile: Result<seq<Byte>, string>)
  {
    conf.sseConfig.sseType == SSEC ==> keyFile.Ok?
  }

  /**
    The provider-local steps of building a bucket, in order: validation,
    the default encryption (an SSE-C key is the content of the key file,
    given here as the result of reading it), the listing-version check,
    and the storage class taken out of the user metadata.
   */
  method NewBucketWithConfig(conf: Config, keyFile: Result<seq<Byte>, string>) returns (r: Result<BucketSettings, NewBucketError>)
    ensures Validate(conf).Some? ==> r == Err(Invalid(Validate(conf).value))
    ensures r.Ok? ==> Validate(conf).None?
    ensures r.Ok? <==>
      Validate(conf).None? &&
      conf.sseConfig.sseType in {"", SSEKMS, SSEC, SSES3} &&
      (conf.sseConfig.sseType == SSEC ==> keyFile.Ok?) &&
      conf.listObjectsVersion in {"", "v1", "v2"}
    ensures Validate(conf).None? && conf.sseConfig.sseType !in {"", SSEKMS, SSEC, SSES3} ==>
      r == Err(UnsupportedSSEType(conf.sseConfig.sseType))
    ensures Validate(conf).None? && conf.sseConfig.sseType == SSEC && keyFile.Err? ==>
      r == Err(ReadKeyFailed(keyFile.error))
    ensures Validate(conf).None? && conf.sseConfig.sseType in {"", SSEKMS, SSEC, SSES3} && SseKeyRead(conf, keyFile) &&
            conf.listObjectsVersion !in {"", "v1", "v2"} ==>
      r == Err(UnsupportedListVersion(conf.listObjectsVersion))
    ensures r.Ok? ==>
      r.value.listObjectsV1 == (conf.listObjectsVersion == "v1") &&
      r.value.partSize == conf.partSize && r.value.name == conf.bucket &&
      r.value.lookup == MinioType(conf.bucketLookupType) &&
      (r.value.defaultSSE == NoSSE <==> conf.sseConfig.sseType == "") &&
      (conf.sseConfig.sseType == SSEKMS ==>
        r.value.defaultSSE == SSEKms(conf.sseConfig.kmsKeyId,
          if conf.sseConfig.kmsEncryptionContext.Some? then conf.sseConfig.kmsEncryptionContext.value else map[])) &&
      (conf.sseConfig.sseType == SSEC ==> r.value.defaultSSE == SSECustomer(keyFile.value)) &&
      (conf.sseConfig.sseType == SSES3 ==> r.value.defaultSSE == SSEManaged) &&
      r.value.disableMultipart == conf.disableMultipart && r.value.sendContentMd5 == conf.sendContentMd5
    ensures r.Ok? && (forall k :: k in conf.putUserMetadata ==> !IsStorageClassKey(k)) ==>
      r.value.putUserMetadata == conf.putUserMetadata && r.value.storageClass == ""
    ensures r.Ok? && (exists k :: k in conf.putUserMetadata && IsStorageClassKey(k)) ==>
      exists k :: k in conf.putUserMetadata && IsStorageClassKey(k) &&
        r.value.putUserMetadata == conf.putUserMetadata - {k} && r.value.storageClass == conf.putUserMetadata[k]
  {
    var invalid := Validate(conf);
    if invalid.Some? {
      return Err(Invalid(invalid.value));
    }
    var sse := NoSSE;
    var sseType := conf.sseConfig.sseType;
    if sseType != "" {
      if sseType == SSEKMS {
        var context := if conf.sseConfig.kmsEncryptionContext.Some? then conf.sseConfig.kmsEncryptionContext.value else map[];
        sse := SSEKms(conf.sseConfig.kmsKeyId, context);
      } else if sseType == SSEC {
        if keyFile.Err? {
          return Err(ReadKeyFailed(keyFile.error));
        }
        sse := SSECustomer(keyFile.value);
      } else if sseType == SSES3 {
        sse := SSEManaged;
      } else {
        return Err(UnsupportedSSEType(sseType));
      }
    }
    if conf.listObjectsVersion != "" && conf.listObjectsVersion != "v1" && conf.listObjectsVersion != "v2" {
      return Err(UnsupportedListVersion(conf.listObjectsVersion));
    }
    var metadata, storageClass := ExtractStorageClass(conf.putUserMetadata);
    return Ok(BucketSettings(conf.bucket, sse, metadata, storageClass, conf.disableMultipart, conf.partSize,
                             conf.listObjectsVersion == "v1", conf.sendContentMd5, MinioType(conf.bucketLookupType)));
  }

  // ---------------------------------------------------------------------
  // Reads
  // ---------------------------------------------------------------------

  /** What the request context holds under the encryption-override key. */
  datatype ContextSSE = NoOverride | Override(sse: SSE) | NotAnSSE

  /** The encryption of a request: the context's override if there is one, else the bucket's default. */
  function ServerSideEncryption(ctx: ContextSSE, defaultSSE: SSE): (r: Result<SSE, string>)
    ensures ctx.NoOverride? ==> r == Ok(defaultSSE)
    ensures ctx.Override? ==> r == Ok(ctx.sse)
    ensures r.Err? <==> ctx.NotAnSSE?
  {
    match ctx
    case NoOverride => Ok(defaultSSE)
    case Override(sse) => Ok(sse)
    case NotAnSSE => Err("invalid SSE config override provided in the context")
  }

  /**
    The Range header of a read: none, the last `count` bytes ("bytes=-N"),
    everything from an offset ("bytes=N-"), or an inclusive first-last
    range ("bytes=N-M"), in the sense of section 14.1.2 of RFC 9110.
   */
  datatype ByteRange = NoRange | Suffix(count: int) | OpenFrom(first: int) | Bounded(first: int, last: int)

  /**
    minio-go's GetObjectOptions.SetRange(start, end): a start of 0 with a
    negative end asks for the last -end bytes, a positive start with an end
    of 0 for everything from start, and 0 <= start <= end for the bytes
    start..end; every other pair is rejected.
   */
  function SetRange(start: int, end: int): (r: Result<ByteRange, string>)
    ensures r.Err? <==> !(start == 0 && end < 0) && !(0 < start && end == 0) && !(0 <= start <= end)
  {
    if start == 0 && end < 0 then Ok(Suffix(-end))
    else if 0 < start && end == 0 then Ok(OpenFrom(start))
    else if 0 <= start <= end then Ok(Bounded(start, end))
    else Err("Invalid range specified")
  }

  /**
    The range requested for `length` bytes from `off`; a length of -1
    means to the end.  Both are int64 and the end `off + length - 1` is
    computed in int64, so it wraps when the sum leaves the int64 range.
   */
  function RangeFor(off: int, length: int): (r: Result<ByteRange, string>)
    requires IsInt64(off) && IsInt64(length)
    ensures length == -1 && off > 0 ==> r == Ok(OpenFrom(off))
    ensures length == -1 && off <= 0 ==> r == Ok(NoRange)
    ensures length != -1 && IsInt64(off + length - 1) ==> r == SetRange(off, off + length - 1)
    ensures length != -1 && off + length - 1 > MaxInt64 ==> r == SetRange(off, off + length - 1 - (MaxUint64 + 1))
  {
    if length != -1 then SetRange(off, Wrap64(off + length - 1))
    else if off > 0 then SetRange(off, 0)
    else Ok(NoRange)
  }

  /** Whether a range selects byte position `i` of an object of `size` bytes. */
  predicate Selects(r: ByteRange, size: nat, i: int)
  {
    0 <= i < size &&
    match r
    case NoRange => true
    case Suffix(count) => size - count <= i
    case OpenFrom(first) => first <= i
    case Bounded(first, last) => first <= i <= last
  }

  /**
    Which reads are refused: a negative offset with a length; a positive
    offset with a length below 1, unless offset + length is 1, where the
    end of 0 turns the request into an open range; and a positive offset
    whose end offset + length - 1 passes MaxInt64, which wraps to a
    negative end.
   */
  lemma RangeForRejects(off: int, length: int)
    requires IsInt64(off) && IsInt64(length)
    ensures RangeFor(off, length).Err? <==>
      length != -1 && (off < 0 || (off > 0 && (off + length - 1 > MaxInt64 || (length < 1 && off + length != 1))))
  {
  }

  /** A read to the end given as a length of MaxInt64 from an offset above 1 is refused, the end having wrapped. */
  lemma LongReadRefused(off: int)
    requires 1 < off <= MaxInt64
    ensures RangeFor(off, MaxInt64).Err?
    ensures RangeFor(0, MaxInt64) == Ok(Bounded(0, MaxInt64 - 1))
  {
    RangeForRejects(off, MaxInt64);
  }

  /**
    A read from a non-negative offset, to the end or of at least one byte
    whose last byte fits in int64, asks for exactly the bytes from the
    offset on, `length` of them when a length is given.
   */
  lemma RangeSelectsRequestedBytes(off: int, length: int, size: nat)
    requires IsInt64(off) && IsInt64(length)
    requires off >= 0 && ((length >= 1 && off + length - 1 <= MaxInt64) || length == -1)
    ensures RangeFor(off, length).Ok?
    ensures length == -1 ==> forall i :: Selects(RangeFor(off, length).value, size, i) <==> off <= i < size
    ensures length >= 1 ==> forall i :: Selects(RangeFor(off, length).value, size, i) <==> off <= i < off + length && i < size
  {
  }

  /** A read of length 0 from offset 0 asks for the last byte of the object rather than for nothing. */
  lemma ZeroLengthReadsLastByte(size: nat)
    requires size > 0
    ensures RangeFor(0, 0) == Ok(Suffix(1))
    ensures forall i :: Selects(RangeFor(0, 0).value, size, i) <==> i == size - 1
  {
  }

  /** Get is the read from offset 0 with no length: no Range header at all. */
  lemma GetRequestsWholeObject(size: nat)
    ensures RangeFor(0, -1) == Ok(NoRange)
    ensures forall i :: Selects(RangeFor(0, -1).value, size, i) <==> 0 <= i < size
  {
  }

  datatype GetRequest = GetRequest(name: string, sse: SSE, range: ByteRange)

  /** The request a ranged read sends: the encryption is resolved first, then the range. */
  function GetRangeRequest(ctx: ContextSSE, defaultSSE: SSE, name: string, off: int, length: int): (r: Result<GetRequest, string>)
    requires IsInt64(off) && IsInt64(length)
    ensures ctx.NotAnSSE? ==> r == Err(ServerSideEncryption(ctx, defaultSSE).error)
    ensures r.Err? <==> ctx.NotAnSSE? || RangeFor(off, length).Err?
    ensures r.Ok? ==>
      r.value.name == name && r.value.range == RangeFor(off, length).value &&
      r.value.sse == ServerSideEncryption(ctx, defaultSSE).value
  {
    var sse :- ServerSideEncryption(ctx, defaultSSE);
    var range :- RangeFor(off, length);
    Ok(GetRequest(name, sse, range))
  }

  // ---------------------------------------------------------------------
  // Listing
  // ---------------------------------------------------------------------

  /** One item of the client's listing channel: a key or a listing error. */
  datatype ListedObject = ListedObject(key: string, err: Option<string>)

  datatype ListOptions = ListOptions(prefix: string, recursive: bool, useV1: bool)

  datatype IterError = ListError(cause: string) | CallbackError(cause: string) | ContextCancelled

  /** An entry the listing skips: an empty key, or the directory itself. */
  predicate Skipped(key: string, prefix: string)
  {
    key == "" || key == prefix
  }

  /**
    The listing over the client's items: errors end it, skipped keys are
    passed over, other keys go to `f` until it fails; at the end a
    cancelled context is reported.
   */
  function Listing(objects: seq<ListedObject>, prefix: string, f: string -> Option<string>, cancelled: bool): (r: (seq<string>, Option<IterError>))
    ensures forall k :: k in r.0 ==> !Skipped(k, prefix)
  {
    if objects == [] then ([], if cancelled then Some(ContextCancelled) else None)
    else
      var o := objects[0];
      if o.err.Some? then ([], Some(ListError(o.err.value)))
      else if Skipped(o.key, prefix) then Listing(objects[1..], prefix, f, cancelled)
      else if f(o.key).Some? then ([o.key], Some(CallbackError(f(o.key).value)))
      else
        var rest := Listing(objects[1..], prefix, f, cancelled);
        ([o.key] + rest.0, rest.1)
  }

  /** The keys the listing passes on when nothing fails. */
  function Kept(objects: seq<ListedObject>, prefix: string): seq<string>
  {
    if objects == [] then []
    else if Skipped(objects[0].key, prefix) then Kept(objects[1..], prefix)
    else [objects[0].key] + Kept(objects[1..], prefix)
  }

  /** Without errors, every key but the skipped ones reaches `f`, in order. */
  lemma {:induction false} ListingWithoutErrors(objects: seq<ListedObject>, prefix: string, f: string -> Option<string>, cancelled: bool)
    requires forall i :: 0 <= i < |objects| ==> objects[i].err.None? && f(objects[i].key).None?
    ensures Listing(objects, prefix, f, cancelled) == (Kept(objects, prefix), if cancelled then Some(ContextCancelled) else None)
  {
    if objects != [] {
      ListingWithoutErrors(objects[1..], prefix, f, cancelled);
    }
  }

  /** Iterates the client's listing of `dir`, passing every key but the skipped ones to `f`. */
  method Iter(dir: string, options: seq<IterOptionType>, useV1: bool, objects: seq<ListedObject>,
              f: string -> Option<string>, cancelled: bool)
    returns (opts: ListOptions, visited: seq<string>, err: Option<IterError>)
    ensures opts == ListOptions(DirPrefix(dir), Recursive in options, useV1)
    ensures (visited, err) == Listing(objects, DirPrefix(dir), f, cancelled)
  {
    var prefix := DirPrefix(dir);
    opts := ListOptions(prefix, ApplyIterOptions(options).recursive, useV1);
    visited := [];
    var i := 0;
    assert objects[0..] == objects;
    assert visited + Listing(objects, prefix, f, cancelled).0 == Listing(objects, prefix, f, cancelled).0;
    while i < |objects|
      invariant 0 <= i <= |objects|
      invariant Listing(objects, prefix, f, cancelled) ==
        (visited + Listing(objects[i..], prefix, f, cancelled).0, Listing(objects[i..], prefix, f, cancelled).1)
    {
      var item := objects[i];
      assert objects[i..][1..] == objects[i + 1..];
      if item.err.Some? {
        assert visited + [] == visited;
        return opts, visited, Some(ListError(item.err.value));
      }
      if item.key == "" || item.key == prefix {
        i := i + 1;
        continue;
      }
      var e := f(item.key);
      if e.Some? {
        return opts, visited + [item.key], Some(CallbackError(e.value));
      }
      var rest := Listing(objects[i + 1..], prefix, f, cancelled);
      assert visited + ([item.key] + rest.0) == (visited + [item.key]) + rest.0;
      visited := visited + [item.key];
      i := i + 1;
    }
    assert visited + [] == visited;
    err := if cancelled then Some(ContextCancelled) else None;
  }

  // ---------------------------------------------------------------------
  // Upload
  // ---------------------------------------------------------------------

  /** Go's conversion of a uint64 to int64: values of 2^63 and above wrap to negatives. */
  function Int64Of(u: int): (v: int)
    requires 0 <= u <= MaxUint64
    ensures -0x8000_0000_0000_0000 <= v <= 0x7FFF_FFFF_FFFF_FFFF
    ensures v % 0x1_0000_0000_0000_0000 == u % 0x1_0000_0000_0000_0000
  {
    Wrap64(u)
  }

  /** The upload size: the guessed size, or -1 when it cannot be guessed. */
  function UploadSize(guess: Result<int, string>): (size: int)
    ensures guess.Ok? ==> size == guess.value
    ensures guess.Err? ==> size == -1
  {
    if guess.Ok? then guess.value else -1
  }

  /** The multipart part size: the configured one, or 0 (the client's default) when the size is below it. */
  function PartSizeFor(size: int, configured: int): (p: int)
    requires 0 <= configured <= MaxUint64
    ensures p == configured || p == 0
    ensures size < Int64Of(configured) ==> p == 0
    ensures size >= Int64Of(configured) ==> p == configured
  {
    if size < Int64Of(configured) then 0 else configured
  }

  /** For part sizes below 2^63, the configured size is used exactly when the object is at least that large; an unknown size never uses it unless it is 0. */
  lemma PartSizeChoice(guess: Result<int, string>, configured: int)
    requires 0 <= configured < 0x8000_0000_0000_0000
    ensures PartSizeFor(UploadSize(guess), configured) == configured <==> UploadSize(guess) >= configured || configured == 0
    ensures guess.Err? && configured > 0 ==> PartSizeFor(UploadSize(guess), configured) == 0
  {
  }

  /** The options a PutObject call is given. */
  datatype PutOptions = PutOptions(disableMultipart: bool, partSize: int, sse: SSE, userMetadata: map<string, string>,
                                   storageClass: string, sendContentMd5: bool)

  /** The PutObject request of an upload, after the encryption is resolved; the metadata is a copy of the bucket's. */
  function UploadRequest(b: BucketSettings, ctx: ContextSSE, guess: Result<int, string>): (r: Result<(int, PutOptions), string>)
    requires 0 <= b.partSize <= MaxUint64
    ensures r.Err? <==> ctx.NotAnSSE?
    ensures r.Ok? ==>
      r.value.0 == UploadSize(guess) && r.value.1.partSize == PartSizeFor(UploadSize(guess), b.partSize) &&
      r.value.1.userMetadata == b.putUserMetadata && r.value.1.storageClass == b.storageClass
    ensures r.Ok? ==>
      r.value.1.sse == ServerSideEncryption(ctx, b.defaultSSE).value &&
      r.value.1.disableMultipart == b.disableMultipart && r.value.1.sendContentMd5 == b.sendContentMd5
  {
    var sse :- ServerSideEncryption(ctx, b.defaultSSE);
    var size := UploadSize(guess);
    Ok((size, PutOptions(b.disableMultipart, PartSizeFor(size, b.partSize), sse, b.putUserMetadata, b.storageClass, b.sendContentMd5)))
  }
}
