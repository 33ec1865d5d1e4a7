# objstore provider logic in Dafny

objstore is a Go library that gives several object stores a single bucket interface. A bucket can list, read, upload, check and delete objects. This project models the decision logic the providers and utilities carry out locally. It then proves what each promises.

- **Filesystem provider** (`filesystem.dfy`, `fstree.dfy`): a bucket stored in a directory tree.
  - The tree is a map from paths to files and directories. `FsBucket` holds it as a field, and `Upload` and `Delete` reassign it.
  - The listing walks directories in name order. It skips empty directories, reports a directory non-recursively as `name/`, and reports only files when recursive.
  - Conditional uploads check If-Match, If-None-Match and IfNotExists against the stored checksum, as in section 13.1 of RFC 9110.
  - Ranged reads report a size.
  - Delete removes the object's subtree, then prunes emptied parents up to, but not including, the root.
- **Access tracker** (`visualized.dfy`): `VisualizedBucket` keeps a per-object log of reads, a size table and a running maximum size.
  - `Dump` turns the log into 30×30 heat-map grids (`CallsImage` over a fixed `array`) and clears the log.
  - The name sanitiser and the grid geometry are also modelled.
- **S3 adapter** (`s3.dfy`):
  - the bucket-lookup-type names;
  - configuration validation;
  - bucket construction: SSE type, listing version and storage class;
  - the Range header of a read, in the sense of section 14.1.2 of RFC 9110;
  - the directory prefix and entry filter of `Iter`;
  - the part-size choice of `Upload`.
- **OBS adapter** (`obs.dfy`):
  - configuration validation;
  - single-put versus multipart upload, and the partition into parts;
  - ranged-read checks;
  - the paged listing loop.
- **Client utilities**:
  - `parse.dfy`: Content-Length (section 8.6 of RFC 9110), the header part of Last-Modified, and MD5 digests in base 16 (section 8 of RFC 4648).
  - `trimconfig.dfy`: the top-level configuration key filter.
- **Shared helpers** (`objstore.dfy`, `wrappers.dfy`): listing-option and upload-option handling, the directory-prefix rule, the callback-visiting loop, and `Option`/`Result`.

Inputs from the environment are parameters:
- a cancelled context is a `cancelled` flag;
- the clock is `now`;
- the SHA-256 checksum is a function `checksumOf`;
- which client calls fail is a predicate `fails`;
- the server's listing pages and the callback `f` are values.

Integers are unbounded. Arguments the source declares as int64 are required to lie in the int64 range (`IsInt64`). Where the source's int64 arithmetic can wrap, the model wraps it explicitly with `Wrap64`. This covers the end `off + length - 1` of an S3 or OBS ranged read and the uint64-to-int64 conversion of the S3 part size (`Int64Of`). `ParseInt64` states the uint64 and int64 bounds that `strconv.ParseInt` checks.

Two behaviours of the source are modelled as they are. The filesystem provider's Get and GetRange succeed on a directory, returning a reader whose reads fail, while Exists says no. The S3 provider's read of length 0 from offset 0 asks for the last byte (`bytes=-1`). A read whose last byte would lie past MaxInt64, such as a length of MaxInt64 from offset 10, wraps its end to a negative number: the S3 provider then refuses the read, and the OBS provider sends the negative end.

The OBS multipart plan is modelled as written: `PartCount` is the ceiling of the size divided by `PartSize`. The last part is `size % PartSize`, which is 0 when the size is an exact multiple. `PartSizesTotal` states that the parts then add up to `size - PartSize`.

## Model

| member | source | states |
|---|---|---|
| Objstore.FirstUnsupported | providers/filesystem/filesystem.go:71-75 | None exactly when every requested option type is supported; otherwise the value is a requested option that is not supported |
| Objstore.UploadOptionTypes | providers/filesystem/filesystem.go:309-312 | the type of every upload option, position by position |
| Objstore.DirPrefixShape | providers/s3/s3.go:395-397 | "" stays ""; a non-empty dir ends in "/": unchanged if it already does, else "/" is appended |
| Objstore.DirPrefixIdempotent | providers/s3/s3.go:395-397 | normalising a directory prefix twice is normalising it once |
| Objstore.Visit | providers/filesystem/filesystem.go:92-134 | the visited entries are a prefix of the input, all of it when no callback fails, and non-empty when one fails |
| Objstore.VisitStopsAtFirstError | providers/filesystem/filesystem.go:127-132 | on failure the last visited entry is the first whose callback fails, and every earlier callback succeeded |
| Objstore.VisitAppend | providers/filesystem/filesystem.go:92-134 | visiting a concatenation visits the second part only when the first raised no error |
| Objstore.Wrap64 | providers/s3/s3.go:434 | the int64 that int64 arithmetic leaves: in range, congruent to x mod 2^64, x itself when x fits, and x moved by one 2^64 just outside |
| TrimConfig.TrimExtraFields | clientutil/trimconfig.go:11-28 | an unmarshal failure is returned as an error; otherwise the keys are the input keys intersected with type/config/prefix, values unchanged |
| TrimConfig.TrimmedKeepsAllowed | clientutil/trimconfig.go:16-26 | the output keys are the input keys intersected with the allowed set, and every kept value is unchanged |
| TrimConfig.TrimmedIdempotent | clientutil/trimconfig.go:21-26 | filtering twice is filtering once |
| TrimConfig.TrimmedWithoutExtraKeys | clientutil/trimconfig.go:21-26 | a document with only allowed keys is unchanged |
| ClientParse.ParseInt64 | clientutil/parse.go:30-35 | accepted exactly when the text is an optional sign and one or more digits whose value is an int64, and then yields that value; a range error exactly when the leading digits exceed MaxUint64 (whatever follows them) or a well-formed number lies outside int64; a syntax error otherwise, the empty string included |
| ClientParse.ParseDigitsFrom | clientutil/parse.go:30 | reading digits one by one ends in a range error when the whole leading digit run exceeds MaxUint64, else in a syntax error when a non-digit follows it, else in its value |
| ClientParse.ParseInt64AcceptsSignAndZeros | clientutil/parse.go:30 | "+7" and "-007" are 7 and -7 |
| ClientParse.ParseInt64SyntaxErrors | clientutil/parse.go:30 | "7x", "+" and "--7" are syntax errors |
| ClientParse.ParseInt64OverflowBeforeBadChar | clientutil/parse.go:30 | twenty nines followed by a non-digit are a range error, not a syntax error |
| ClientParse.DecimalDigitsValue | clientutil/parse.go:30-35 | the decimal digits of n read back as n |
| ClientParse.ParseFormatRoundTrip | clientutil/parse.go:30-35 | every int64 formatted in base 10 parses back to itself |
| ClientParse.FirstValue | clientutil/parse.go:21-28 | a missing header, an empty value list and the first value are told apart |
| ClientParse.ParseContentLength | clientutil/parse.go:18-36 | "not found" for a missing header, "has no values" for an empty list, else the base-10 parse of the first value or a conversion error |
| ClientParse.ContentLengthUsesFirstValue | clientutil/parse.go:30 | later values and other headers never change the result |
| ClientParse.ContentLengthRoundTrip | clientutil/parse.go:18-36 | a header whose first value is a formatted int64 yields that int64 |
| ClientParse.ContentLengthMissing | clientutil/parse_test.go:81-83 | a missing header gives "Content-Length header not found" |
| ClientParse.ContentLengthRejectsText | clientutil/parse_test.go:84-87 | "invalid" is a conversion failure with a syntax error |
| ClientParse.ContentLengthExamples | clientutil/parse_test.go:88-91 | "12345" gives 12345 |
| ClientParse.LastModifiedRequest | clientutil/parse.go:42-59 | missing and empty headers are reported as for Content-Length; otherwise the first value is parsed with the given layout, RFC3339 when the layout is "" |
| ClientParse.HexDecodePrefix | clientutil/parse.go:75 | decoding yields at most one byte per two characters |
| ClientParse.ParseMD5 | clientutil/parse.go:72-80 | the result is None or exactly 16 bytes |
| ClientParse.QuotedDigestSameBytes | clientutil/parse.go:74 | surrounding a digest with quotes does not change the result |
| ClientParse.HexDecodeAllHex | clientutil/parse.go:75 | an even run of hex digits decodes to half as many bytes, byte k = 16·hex(s[2k]) + hex(s[2k+1]) |
| ClientParse.ParseMD5HexDigits | clientutil/parse_test.go:121-124 | 32 hex digits are accepted, byte k formed from digits 2k and 2k+1 |
| ClientParse.HexEncode | clientutil/parse_test.go:121-124 | encoding gives two hex digits per byte |
| ClientParse.HexDecodeEncode | clientutil/parse.go:75 | decoding inverts encoding |
| ClientParse.ParseMD5EncodeRoundTrip | clientutil/parse.go:72-80 | a 16-byte digest, hex encoded, quoted or not, parses back to itself |
| ClientParse.ParseMD5RejectsExamples | clientutil/parse_test.go:126-151 | empty, quotes-only, odd-length and non-hex inputs give None |
| ClientParse.ParseMD5NeedsThirtyTwoDigits | clientutil/parse.go:75-79 | fewer than 32 characters after trimming quotes are never accepted |
| ClientParse.ParseMD5Strict | clientutil/parse.go:72-80 | the corrected parser returns None or 16 bytes |
| ClientParse.ParseMD5StrictAccepts | clientutil/parse.go:72-80 | the corrected parser accepts exactly 32 hex digits after trimming quotes, and agrees with ParseMD5 there |
| ClientParse.ParseMD5AcceptsMalformedTail | clientutil/parse.go:75-78 | as written, 32 hex digits followed by one more hex digit are accepted; the corrected parser rejects them |
| ClientParse.HexDecodePrefixExtends | clientutil/parse.go:75 | one trailing character after an even run of hex digits adds no byte |
| S3.LookupName | providers/s3/s3.go:37-39 | the name is one of auto, virtual-hosted, path |
| S3.MinioType | providers/s3/s3.go:41-47 | each setting selects its own minio lookup kind: auto, DNS for virtual-hosted, path for path |
| S3.ParseLookupType | providers/s3/s3.go:53-72 | accepts exactly the three names; any other is rejected with "unsupported bucket lookup type: " and the name |
| S3.LookupNameRoundTrip | providers/s3/s3.go:37-72 | parsing the name of a lookup type gives that lookup type |
| S3.LookupNameInjective | providers/s3/s3.go:37-72 | every accepted name is the name of what it parses to |
| S3.LookupTypeField.constructor | providers/s3/s3.go:35 | the field holds the given lookup type |
| S3.LookupTypeField.UnmarshalYAML | providers/s3/s3.go:53-72 | a decode failure or an unknown name is an error and leaves the field unchanged; a known name is written to the field |
| S3.Validate | providers/s3/s3.go:352-378 | each error holds exactly when its check is the first to fail, in the source's order; None iff every check passes |
| S3.ValidateForTests | providers/s3/s3.go:381-388 | accepts exactly when endpoint and both keys are set |
| S3.TestConfigIsValid | providers/s3/s3.go:352-388 | a test configuration without SDK auth and without SSE-C/SSE-KMS passes validation |
| S3.AsciiLower | providers/s3/s3.go:322-324 | the result is never an upper-case ASCII letter |
| S3.StorageClassKeyMeaning | providers/s3/s3.go:322-324 | a metadata key names the storage class exactly when it is X-Amz-Storage-Class in any mix of letter cases |
| S3.ExtractStorageClass | providers/s3/s3.go:321-329 | without a storage-class key the metadata is unchanged and the class is ""; otherwise one such key is removed and its value is the class |
| S3.NewBucketWithConfig | providers/s3/s3.go:205-344 | in order: an invalid configuration, an unreadable SSE-C key file, an unknown SSE type, an unknown listing version each give their own error; otherwise the settings hold the SSE (KMS with its context, the key file for SSE-C, managed for SSE-S3, none for ""), V1 listing iff "v1", the flags, and the metadata without its storage class |
| S3.ServerSideEncryption | providers/s3/s3.go:563-572 | the context's override if any, else the bucket default; an override of the wrong type is an error |
| S3.SetRange | providers/s3/s3.go:433-441 | the ranges minio accepts: the last -end bytes for start 0 and a negative end, everything from start for a positive start and end 0, start..end for 0 <= start <= end; every other pair is an error |
| S3.RangeFor | providers/s3/s3.go:432-441 | no range for a read to the end from offset 0 or below, an open range from a positive offset, otherwise SetRange(off, off+length-1) with the end wrapped by 2^64 when it passes MaxInt64 |
| S3.RangeForRejects | providers/s3/s3.go:432-441 | a read is refused exactly when it has a length and either a negative offset, or a positive offset with an end past MaxInt64, or a positive offset with a length below 1 other than 1-off |
| S3.LongReadRefused | providers/s3/s3.go:432-436 | a length of MaxInt64 from an offset above 1 is refused; from offset 0 it asks for bytes 0..MaxInt64-1 |
| S3.RangeSelectsRequestedBytes | providers/s3/s3.go:432-441 | from a non-negative offset, to the end or for at least one byte with the last byte within int64, the request selects exactly the bytes from the offset on, `length` of them when a length is given |
| S3.ZeroLengthReadsLastByte | providers/s3/s3.go:432-436 | a read of length 0 from offset 0 asks for the last byte of the object |
| S3.GetRequestsWholeObject | providers/s3/s3.go:460-462 | Get sends no Range header and so selects every byte |
| S3.GetRangeRequest | providers/s3/s3.go:426-441 | a bad encryption override is reported first; the read fails exactly on that or on a refused range; otherwise the request names the object and carries the resolved encryption and RangeFor(off, length) |
| S3.Listing | providers/s3/s3.go:405-424 | no key passed to the callback is empty or equal to the directory |
| S3.ListingWithoutErrors | providers/s3/s3.go:405-424 | without listing or callback errors, every key except the skipped ones reaches the callback in order |
| S3.Iter | providers/s3/s3.go:392-424 | the listing prefix is DirPrefix(dir) and is recursive iff Recursive was given; the visit is Listing over the client's objects |
| S3.Int64Of | providers/s3/s3.go:496 | the int64 with the same bits as a uint64, in range and congruent mod 2^64 |
| S3.UploadSize | providers/s3/s3.go:489-493 | the guessed size, or -1 when it cannot be guessed |
| S3.PartSizeFor | providers/s3/s3.go:495-498 | the configured part size, replaced by 0 when the size is below it as an int64 |
| S3.PartSizeChoice | providers/s3/s3.go:489-498 | below 2^63 the configured size is used iff the object is at least that large or it is 0; an unknown size never uses a positive one |
| S3.UploadRequest | providers/s3/s3.go:483-530 | fails exactly on an override of the wrong type; otherwise carries the size, the chosen part size, the resolved encryption, the bucket's multipart and MD5 flags, storage class and metadata |
| Obs.Validate | providers/obs/obs.go:53-70 | None iff endpoint and both keys are set; otherwise the first missing one is reported |
| Obs.PartCount | providers/obs/obs.go:217-220 | the size divided by PartSize, rounded up; none for a size of 0 or less |
| Obs.PartPlan | providers/obs/obs.go:217-237 | one part per PartCount |
| Obs.UploadPartCalls | providers/obs/obs.go:226-233 | one UploadPart call per part, in order |
| Obs.PartNumbers | providers/obs/obs.go:226-237 | the numbers 1..n in order |
| Obs.MultipartUpload | providers/obs/obs.go:216-240 | on success the parts are numbered 1..PartCount and every plan part is sent; on failure the calls stop at the first failing part |
| Obs.PartOutcomes | providers/obs/obs.go:216-240 | either every part is accepted or exactly one part is the first the client rejects |
| Obs.Upload | providers/obs/obs.go:140-191 | unknown or non-positive sizes are rejected without calls; a single put up to 100 MiB; above: a failed initiation is InitFailed after that call alone, the first failing part k is PartFailed(k+1) after the calls up to it, a failed completion is CompleteFailed; the upload succeeds exactly when no call it makes fails, and an abort is never issued |
| Obs.UploadWithAbort | providers/obs/obs.go:140-191 | the same selection and the same error for each failing call, and any failure after the initiation ends with an abort of the upload |
| Obs.PartPlanLayout | providers/obs/obs.go:221-233 | part i is numbered i+1 at offset i·PartSize; every part but the last is PartSize and the last is size % PartSize |
| Obs.SumFullParts | providers/obs/obs.go:221-233 | the first k parts before the last add up to k·PartSize |
| Obs.PartSizesTotal | providers/obs/obs.go:217-233 | the parts add up to the size, except for an exact multiple of PartSize, where they add up to size − PartSize |
| Obs.PartCountDivision | providers/obs/obs.go:217-220 | the part count against quotient and remainder |
| Obs.MultipartHasTwoParts | providers/obs/obs.go:147-159 | a multipart object has at least two parts |
| Obs.GetRangeInput | providers/obs/obs.go:306-331 | a blank name and a negative offset are rejected in that order; the request names the object from off |
| Obs.GetRangeCoversLength | providers/obs/obs.go:315-320 | the range holds exactly `length` bytes when its end fits in int64; an end past MaxInt64 wraps to a negative number, one below MinInt64 (offset 0) to MaxInt64; -1 ends at MaxInt64 |
| Obs.GetReadsWholeObject | providers/obs/obs.go:297-299 | Get reads 0..MaxInt64 |
| Obs.Listing | providers/obs/obs.go:249-284 | between 1 and all of the pages are requested |
| Obs.VisitEach | providers/obs/obs.go:266-279 | visits the names in order, stopping at the first callback error |
| Obs.VisitPage | providers/obs/obs.go:266-279 | visits a page's objects, then its common prefixes |
| Obs.Iter | providers/obs/obs.go:249-284 | visits and fails as Listing says; requests as many pages; request i carries the prefix, the delimiter chosen by Recursive and the marker of page i−1 |
| Obs.ListingStopsAtLastPage | providers/obs/obs.go:261-282 | with no errors the listing stops exactly at the first untruncated page |
| Obs.DelimiterChoice | providers/obs/obs.go:254-257 | delimiter "" with Recursive, "/" otherwise |
| Obs.IterWithAttributes | providers/obs/obs.go:286-294 | an unsupported option fails before any request; otherwise Iter with names only |
| Obs.UpdatedAtRejected | providers/obs/obs.go:244-289 | asking for UpdatedAt always fails |
| FsTree.WFPrefixes | providers/filesystem/filesystem.go:319-321 | in a well-formed tree every proper prefix of an entry is a directory |
| FsTree.ChildrenMeaning | providers/filesystem/filesystem.go:88 | a name is a child of d iff d/name is an entry |
| FsTree.EmptyDirMeaning | providers/filesystem/filesystem.go:409-424 | a directory is empty iff it has no children |
| FsTree.MkdirAll | providers/filesystem/filesystem.go:319-321 | the missing prefixes of d are added; existing entries are kept |
| FsTree.MkdirAllWF | providers/filesystem/filesystem.go:319-321 | creating the parents keeps the tree well formed and makes every prefix a directory |
| FsTree.RemoveSubtree | providers/filesystem/filesystem.go:432-434 | removes exactly the entry and everything below it |
| FsTree.PruneUpRemoves | providers/filesystem/filesystem.go:427-447 | Delete removes exactly the subtree and the non-root ancestors left with nothing else below them |
| FsTree.PrunedBelow | providers/filesystem/filesystem.go:436-446 | whatever lies below a pruned entry is pruned too |
| FsTree.PruneUpWF | providers/filesystem/filesystem.go:427-447 | pruning keeps the tree well formed |
| FsTree.LessEqTotal | providers/filesystem/filesystem.go:88 | name order is total |
| FsTree.LessEqAntisymmetric | providers/filesystem/filesystem.go:88 | name order is antisymmetric |
| FsTree.LessEqTransitive | providers/filesystem/filesystem.go:88 | name order is transitive |
| FsTree.LeastExists | providers/filesystem/filesystem.go:88 | a non-empty set of names has a least one |
| FsTree.SortedNamesMeaning | providers/filesystem/filesystem.go:88 | the directory listing holds each name once, in strictly increasing order |
| Filesystem.EntryAttrsCases | providers/filesystem/filesystem.go:95-134 | an empty directory reports nothing; a directory reports "name/" flat and its files recursively; a file reports itself |
| Filesystem.EntriesJustified | providers/filesystem/filesystem.go:92-134 | every reported entry is a file below the directory, or flat a non-empty child directory with "/" |
| Filesystem.RecursiveEntriesComplete | providers/filesystem/filesystem.go:108-117 | a recursive listing reports every file below the directory |
| Filesystem.FlatEntriesComplete | providers/filesystem/filesystem.go:95-122 | a flat listing reports every child file and every non-empty child directory |
| Filesystem.IterOptionsAccepted | providers/filesystem/filesystem.go:140-153 | Iter passes on only Recursive, never fails on options, and never asks for times |
| Filesystem.GetRange | providers/filesystem/filesystem.go:211-261 | cancellation, then the empty name; success iff an entry exists with no file above it, a directory giving a reader that cannot be read; a file's content is its bytes from max(off,0), all of them for -1, the first `length` of them for a length of 0 or more, none for a length below -1; the size is the stat size less max(off,0), capped by `length` |
| Filesystem.GetRangeSizeIsContentLength | providers/filesystem/filesystem.go:242-260 | for any offset up to the end of a file, negative ones included, the reported size is the number of bytes read |
| Filesystem.GetRangePastEnd | providers/filesystem/filesystem.go:242-260 | past the end of a file nothing is read and the size is negative (or length is 0) |
| Filesystem.Get | providers/filesystem/filesystem.go:156-158 | the whole file with its size; for a directory, an unreadable reader with the directory's stat size |
| Filesystem.Exists | providers/filesystem/filesystem.go:264-277 | true iff a file is there; a directory or a missing entry is false; an error only on cancellation or a file above the name |
| Filesystem.ExistsAgreesWithGet | providers/filesystem/filesystem.go:264-277 | Exists says yes iff Get returns a reader over a file; Get of a directory succeeds while Exists says no; a not-found Get means Exists says no |
| Filesystem.SupportedObjectUploadOptions | providers/filesystem/filesystem.go:402-407 | all three conditions with attribute support, none without |
| Filesystem.CheckConditions | providers/filesystem/filesystem.go:380-400 | no condition never fails; a missing object fails unless IfNotMatch; a non-ETag condition fails; a missing checksum fails; If-None-Match fails iff the tags are equal, If-Match iff they differ |
| Filesystem.CheckConditionsIsPrecondition | providers/filesystem/filesystem.go:380-400 | with entity tags, the check passes exactly when the RFC 9110 precondition holds |
| Filesystem.OpenForUpload | providers/filesystem/filesystem.go:290-330 | an early stop always carries an error; otherwise whether the object existed is reported |
| Filesystem.UploadAsWritten | providers/filesystem/filesystem.go:307-367 | early errors change nothing; the file outcome as the code writes it |
| Filesystem.AsWrittenAgreesWithIntended | providers/filesystem/filesystem.go:307-367 | the code as written reports the same error as the intended upload on every input, and with attribute support leaves the same tree whenever the upload succeeds or the target already existed, so UploadThenGet and UploadWF hold for it there |
| Filesystem.UploadOutcome | providers/filesystem/filesystem.go:307-367 | early errors change nothing; a failed condition leaves the tree as it was after the parents were created |
| Filesystem.UploadValidatesFirst | providers/filesystem/filesystem.go:309-315 | unsupported options are rejected before cancellation, and cancellation before anything is written |
| Filesystem.IfNotExistsOnExisting | providers/filesystem/filesystem.go:290-304 | IfNotExists over an existing object fails with a condition-not-met error and changes nothing |
| Filesystem.UploadWF | providers/filesystem/filesystem.go:307-367 | an upload keeps the tree well formed and touches only the target and its missing parents |
| Filesystem.UploadThenGet | providers/filesystem/filesystem.go:307-367 | for the corrected upload (UploadOutcome; UploadAsWritten holds the code as written): after success Get returns exactly the uploaded bytes |
| Filesystem.FailedConditionLeavesEmptyFile | providers/filesystem/filesystem.go:290-343 | as written an IfMatch upload of a missing object fails but leaves an empty object; corrected, nothing is left |
| Filesystem.NoXattrDropsContent | providers/filesystem/filesystem.go:345-359 | as written an upload without attribute support stores no bytes; corrected, it stores the content |
| Filesystem.FsBucket.constructor | providers/filesystem/filesystem.go:38-56 | a bucket over an empty root |
| Filesystem.FsBucket.ReadDir | providers/filesystem/filesystem.go:88 | the directory's children in sorted order |
| Filesystem.FsBucket.IterWithAttributes | providers/filesystem/filesystem.go:66-136 | visits and fails exactly as IterOutcome: cancellation, options, missing path and non-directory first, then the entries |
| Filesystem.FsBucket.ListDirectory | providers/filesystem/filesystem.go:88-135 | the directory's entries in name order, each contributing as EntryAttrs says |
| Filesystem.FsBucket.ListEntry | providers/filesystem/filesystem.go:93-133 | one entry's contribution: skipped, "name/", a recursive listing, or the file |
| Filesystem.FsBucket.Iter | providers/filesystem/filesystem.go:140-153 | IterWithAttributes with only Recursive, the callback seeing names |
| Filesystem.FsBucket.Upload | providers/filesystem/filesystem.go:307-367 | the corrected upload: the new tree and error are UploadOutcome of the old tree (UploadAsWritten holds the code as written) |
| Filesystem.FsBucket.Delete | providers/filesystem/filesystem.go:427-447 | cancellation and a file above the name change nothing; otherwise the tree is pruned upward |
| Visualized.SafeName | visualized_bucket.go:307-312 | the length is preserved |
| Visualized.SafeNameKeepsAllowed | visualized_bucket.go:307-312 | every output character is allowed; a character is kept iff allowed, else it becomes '_' |
| Visualized.SafeNameFixedPoints | visualized_bucket.go:307-312 | a name is unchanged iff all its characters are allowed; sanitising is idempotent |
| Visualized.SafeNameCollides | visualized_bucket.go:307-312 | a name with a disallowed character shares its image file with the different name that has '_' in its place |
| Visualized.GridTiles | visualized_bucket.go:81-104 | every pixel of the square GridDimension·CellWidth wide from the margins, [80,1460)², lies in exactly one cell, the one of its column and row |
| Visualized.ReadsOf | visualized_bucket.go:283-300 | the read count of every cell |
| Visualized.MaxOfIsMaximum | visualized_bucket.go:296-300 | the maximum bounds every count and is 0 or attained |
| Visualized.MaxOfRaise | visualized_bucket.go:296-300 | raising one count raises the maximum to at most that count |
| Visualized.ClampCells | visualized_bucket.go:285-293 | a negative start becomes 0 and a start past 899 becomes 899; an end past 899 becomes 899; other values are kept |
| Visualized.Touch | visualized_bucket.go:296-300 | each cell in [first,last] gains one read, the others none |
| Visualized.CellCountsCount | visualized_bucket.go:283-300 | each cell counts exactly the reads whose clamped range covers it |
| Visualized.CallsImage.constructor | visualized_bucket.go:181-198 | a fresh grid of 900 cells with no reads |
| Visualized.CallsImage.AddRead | visualized_bucket.go:283-300 | the counts gain one in each clamped cell; the geometry is unchanged |
| Visualized.CallsImage.CountRead | visualized_bucket.go:296-300 | one cell gains one read, and the maximum follows |
| Visualized.CallsImage.RenderGrid | visualized_bucket.go:81-104 | cell y·30+x gets the rectangle of column x and row y; counts are kept |
| Visualized.MaxOfZeros | visualized_bucket.go:181-198 | a fresh grid's maximum is 0 |
| Visualized.ObjectSize | visualized_bucket.go:263-270 | the recorded size if non-zero, else maxSize if non-zero, else 1 MiB |
| Visualized.HeatmapOf | visualized_bucket.go:272-315 | a heat map has 900 cells |
| Visualized.HeatmapCounts | visualized_bucket.go:272-315 | the map's maximum is its largest count and every count is the number of reads covering the cell |
| Visualized.VisualizedBucket.constructor | visualized_bucket.go:220-239 | empty log and sizes, maxSize 0 |
| Visualized.VisualizedBucket.GetRange | visualized_bucket.go:396-430 | appends one (off, length) read to the name's log; asks for attributes only for an unknown size; records a positive size and raises maxSize to it |
| Visualized.VisualizedBucket.Upload | visualized_bucket.go:450-464 | the log is unchanged; a positive declared size is recorded and maxSize raised to it |
| Visualized.VisualizedBucket.Delete | visualized_bucket.go:466-474 | removes the name from the log and the sizes, nothing else |
| Visualized.VisualizedBucket.Dump | visualized_bucket.go:243-324 | log and sizes are always cleared; no reads means no output and no error; MkdirFailed exactly when there are reads and mkdir fails; no error exactly when there are no reads or neither mkdir nor any object's image write fails; each logged object gets one heat map, with HeatmapOf's counts |
| Visualized.DrawHeatmap | visualized_bucket.go:272-315 | the image's counts are CellCounts of the object's reads and its maximum is their largest |
| Visualized.MaxSizeBoundsSizes | visualized_bucket.go:414-461 | with the tracker's invariant, the size a dump assumes is positive and at most maxSize |

## Left out

- objstore.go is not part of this model. `ApplyIterOptions`, `ValidateIterOptions`, the upload-option helpers and the `DirDelim` constant are rebuilt in `Objstore` from how the providers call them.
- The decorators, `DownloadDir`/`UploadDir` and the in-memory bucket are not part of this model either.
- Paths are sequences of names. `filepath.Join`/`Clean`, `..`, symbolic links and permissions are not modelled.
  - The only operating-system conditions modelled are "not found", "not a directory", "is a directory", "exists" and an unreadable checksum attribute (`XattrMissing`).
  - Directory modification times are not updated by writes.
- Filesystem.FsBucket.Upload: the swap-file lock (`openSwap`, its spin loop, and the rename from the swap file) is left out. The upload is one atomic step on the tree.
- Filesystem.UploadAsWritten: the failures of reading the uploaded content (`io.Copy`), of `xattr.Set` and of `os.Rename` (filesystem.go:348-358) are not modelled; the reader and these calls always succeed. UploadOutcome and FsBucket.Upload leave them out in the same way.
- Filesystem.GetRange: what stat reports as a directory's size depends on the filesystem, so it is the parameter `dirSize`. Reads from a directory fail, and their error is not modelled.
- The context becomes a fixed `cancelled` flag, and the clock becomes the `now` parameter. SHA-256 and the extended-attribute store become `checksumOf` and a `checksum` field on files. Concurrency, the mutexes and the race test are left out.
- Attributes, Name, Close, Provider and IsAccessDeniedErr are left out because they only wrap client calls.
- The S3 and OBS SDK clients, credentials, HTTP configuration and `NewBucket`/`parseConfig` (YAML text) are left out. Listing pages, the object channel, and which calls fail are inputs.
- S3.NewBucketWithConfig: the SSE-C key-length check inside `encrypt.NewSSEC` is not modelled, so any key file that reads is accepted.
- S3.ExtractStorageClass: the source deletes the storage-class key from `config.PutUserMetadata` in place. That map is shared with the caller and kept by the bucket. The model returns a new map instead, so the caller's copy losing the key is not captured.
- S3.SetRange: minio-go is not part of this model. The cases `GetObjectOptions.SetRange` accepts are rebuilt from that library's documented behaviour, and only the Range it sets is modelled, not the request sent.
- ClientParse.ParseInt64: `strconv` is Go's standard library and is not part of this model. Its base-10 behaviour is rebuilt from that package's documented rules.
- S3.Lower: `strings.ToLower` is modelled on ASCII letters only. Among Unicode's simple case mappings, only the ASCII capitals lower to the letters of "x-amz-storage-class", so the storage-class match is unaffected.
- Obs.Iter requires that the server eventually ends the listing with an untruncated page or an error (`ListingEnds`). A server that never stops is not modelled.
- Obs.PartCount: `math.Ceil` on a float64 division is modelled as exact integer ceiling division. The two differ only for sizes beyond 2^53.
- ClientParse.LastModifiedRequest: `time.Parse` is not modelled. The member states the layout and the value it is given.
- TrimConfig.TrimExtraFields: YAML decoding and encoding are not modelled. The method takes the decoded map, or the decoder's error, and returns the filtered map.
- Visualized.CallsImage.AddRead: the float percent-to-cell conversion is the parameter `cellsOf`. The member takes the raw start and end cells.
- Visualized.VisualizedBucket.Dump:
  - `writeIndexFile` (visualized_bucket.go:327-376), headers, colours, fonts and PNG encoding are left out; a write failure is the predicate `writeFails`.
  - The background goroutine that dumps periodically is left out.
- Visualized.CallsImage.CountRead: counts are unbounded. The source's uint64 wrap-around would need 2^64 reads.
- The TryToGetSize guess in S3 and OBS uploads is an input.

## Findings

| source | as written | input that shows it | evidently intended | confidence | as-written member | corrected member |
|---|---|---|---|---|---|---|
| clientutil/parse.go:72-80 | the error of `hex.DecodeString` is ignored, and its partial output is checked only for length 16 | 32 hex digits followed by one more hex digit | reject anything but 32 hex digits | not executed | ClientParse.ParseMD5AcceptsMalformedTail | ClientParse.ParseMD5StrictAccepts |
| providers/filesystem/filesystem.go:290-343 | the target is created (O_CREATE) before `checkConditions` runs | an IfMatch upload of a name that does not exist | a failed condition leaves no object behind | not executed | Filesystem.FailedConditionLeavesEmptyFile | Filesystem.UploadOutcome |
| providers/filesystem/filesystem.go:345-359 | the content is copied only inside the branch that sets the checksum attribute | any upload on a host without extended-attribute support | the content is written in every case | not executed | Filesystem.NoXattrDropsContent | Filesystem.UploadOutcome |
| providers/obs/obs.go:156-183 | `parts, err :=` declares a new `err`, so the deferred abort sees the outer, nil `err` | a multipart upload whose second part fails | the failed multipart upload is aborted | not executed | Obs.Upload | Obs.UploadWithAbort |
