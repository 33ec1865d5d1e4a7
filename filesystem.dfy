/**
  The filesystem provider: a bucket kept as a directory tree under a root
  directory.  Objects are files, an object name is the file's path below
  the root, and listing walks the directories.  The tree is the state of
  `FsBucket`; reads are functions of the tree.  The context is a
  `cancelled` flag, the clock a `now` parameter, and the SHA-256 checksum
  kept in an extended attribute an opaque function of the content.
 */
module Filesystem {
  import opened Wrappers
  import opened Objstore
  import opened FsTree

  /** The options IterWithAttributes accepts. */
  const SupportedIterOptions: seq<IterOptionType> := [Recursive, UpdatedAt]

  /** The failures the provider reports, by the operating-system error or condition behind them. */
  datatype FsError =
    | Cancelled
    | UnsupportedIterOption(iterOption: IterOptionType)
    | UnsupportedUploadOption(uploadOption: UploadOptionType)
    | EmptyName
    | NotExist          // ENOENT
    | NotADirectory     // ENOTDIR: a file stands where a parent directory should
    | IsADirectory      // EISDIR
    | Exist             // EEXIST
    | ConditionNotMet
    | XattrMissing      // the checksum attribute cannot be read
    | CallbackFailed(cause: string)

  /** IsObjNotFoundErr: the error is ENOENT. */
  predicate IsObjNotFoundErr(e: FsError)
  {
    e.NotExist?
  }

  /** IsConditionNotMetErr: a failed upload condition, or EEXIST from an IfNotExists upload. */
  predicate IsConditionNotMetErr(e: FsError)
  {
    e.ConditionNotMet? || e.Exist?
  }

  function Min(a: int, b: int): int { if a < b then a else b }

  function Max(a: int, b: int): int { if a < b then b else a }

  /** The path names a directory: the root, or a directory entry. */
  predicate IsDirectoryAt(t: Tree, d: Path)
  {
    d == [] || (d in t && t[d].Directory?)
  }

  // ---------------------------------------------------------------------
  // Listing
  // ---------------------------------------------------------------------

  /** The attributes reported for one entry: a modification time only when UpdatedAt was asked for. */
  function Attrs(name: string, mtime: int, params: IterParams): IterObjectAttributes
  {
    IterObjectAttributes(name, if params.lastModified then Some(mtime) else None)
  }

  lemma ChildPaths(t: Tree, d: Path)
    ensures forall c :: c in SortedNames(Children(t, d)) ==> d + [c] in t
  {
    SortedNamesMeaning(Children(t, d));
    forall c | c in Children(t, d) ensures d + [c] in t {
      ChildrenMeaning(t, d, c);
    }
  }

  /** Everything a listing of the directory `d` reports, in order. */
  ghost function Entries(t: Tree, d: Path, params: IterParams): seq<IterObjectAttributes>
    decreases |Under(t, d)|, 1
  {
    ChildPaths(t, d);
    EntriesOf(t, d, SortedNames(Children(t, d)), params)
  }

  /** What the entries `names` of the directory `d` contribute to its listing, in order. */
  ghost function EntriesOf(t: Tree, d: Path, names: seq<string>, params: IterParams): seq<IterObjectAttributes>
    requires forall c :: c in names ==> d + [c] in t
    decreases |Under(t, d)|, 0, |names|
  {
    if names == [] then []
    else EntryAttrs(t, d, names[0], params) + EntriesOf(t, d, names[1..], params)
  }

  /** Listing the names from position i on: the entry at i, then the rest. */
  lemma EntriesOfStep(t: Tree, d: Path, names: seq<string>, i: nat, params: IterParams)
    requires forall c :: c in names ==> d + [c] in t
    requires i < |names|
    ensures EntriesOf(t, d, names[i..], params) ==
      EntryAttrs(t, d, names[i], params) + EntriesOf(t, d, names[i + 1..], params)
  {
    assert names[i..][1..] == names[i + 1..];
  }

  /**
    What one entry contributes: a file its own name; an empty directory
    nothing; a non-empty directory its contents when listing recursively
    and otherwise its name with a trailing "/".
   */
  ghost function EntryAttrs(t: Tree, d: Path, c: string, params: IterParams): seq<IterObjectAttributes>
    requires d + [c] in t
    decreases |Under(t, d)|, 0, 0
  {
    var p := d + [c];
    match t[p]
    case File(_, mtime, _) => [Attrs(Render(p), mtime, params)]
    case Directory(mtime) =>
      if Children(t, p) == {} then []
      else if params.recursive then (UnderShrinks(t, d, c); Entries(t, p, params))
      else [Attrs(Render(p) + DirDelim, mtime, params)]
  }

  /** The three kinds of contribution an entry makes to a listing. */
  lemma EntryAttrsCases(t: Tree, d: Path, c: string, params: IterParams)
    requires d + [c] in t
    ensures var p := d + [c]; var e := t[p];
      EntryAttrs(t, d, c, params) ==
        if e.Directory? && Children(t, p) == {} then []
        else if e.Directory? && params.recursive then Entries(t, p, params)
        else [Attrs(if e.Directory? then Render(p) + DirDelim else Render(p), e.mtime, params)]
  {
  }

  /** A callback failure as the provider's error. */
  function CallbackError(e: Option<string>): Option<FsError>
  {
    if e.Some? then Some(CallbackFailed(e.value)) else None
  }

  /**
    The outcome of IterWithAttributes: the attributes handed to the
    callback and the error returned.
   */
  ghost function IterOutcome(t: Tree, cancelled: bool, dir: Path, options: seq<IterOptionType>,
                             f: IterObjectAttributes -> Option<string>): (seq<IterObjectAttributes>, Option<FsError>)
  {
    if cancelled then ([], Some(Cancelled))
    else if FirstUnsupported(SupportedIterOptions, options).Some? then
      ([], Some(UnsupportedIterOption(FirstUnsupported(SupportedIterOptions, options).value)))
    else if AncestorIsFile(t, dir) then ([], Some(NotADirectory))
    else if !IsDirectoryAt(t, dir) then ([], None)
    else
      var v := Visit(Entries(t, dir, ApplyIterOptions(options)), f);
      (v.0, CallbackError(v.1))
  }

  /** How a reported entry arises from a directory entry at `p` in a non-recursive listing. */
  predicate FlatReport(t: Tree, p: Path, a: IterObjectAttributes, params: IterParams)
    requires p in t
  {
    match t[p]
    case File(_, mtime, _) => a == Attrs(Render(p), mtime, params)
    case Directory(mtime) => Children(t, p) != {} && a == Attrs(Render(p) + DirDelim, mtime, params)
  }

  /** A reported entry is justified by the tree under `d`. */
  ghost predicate Justified(t: Tree, d: Path, params: IterParams, a: IterObjectAttributes)
  {
    (params.recursive ==> exists p :: p in t && d < p && t[p].File? && a == Attrs(Render(p), t[p].mtime, params)) &&
    (!params.recursive ==> exists c :: d + [c] in t && FlatReport(t, d + [c], a, params))
  }

  /**
    Every entry a listing reports is justified: recursively, a file below
    the directory (so never a directory, empty or not); non-recursively, a
    file or a non-empty directory directly inside it, the latter with a
    trailing "/".  The modification time is present exactly when asked for.
   */
  lemma {:induction false} EntriesJustified(t: Tree, d: Path, params: IterParams)
    ensures forall a :: a in Entries(t, d, params) ==> Justified(t, d, params, a)
    decreases |Under(t, d)|, 1
  {
    ChildPaths(t, d);
    EntriesOfJustified(t, d, SortedNames(Children(t, d)), params);
  }

  lemma {:induction false} EntriesOfJustified(t: Tree, d: Path, names: seq<string>, params: IterParams)
    requires forall c :: c in names ==> d + [c] in t
    ensures forall a :: a in EntriesOf(t, d, names, params) ==> Justified(t, d, params, a)
    decreases |Under(t, d)|, 0, |names|
  {
    if names != [] {
      EntryAttrsJustified(t, d, names[0], params);
      EntriesOfJustified(t, d, names[1..], params);
    }
  }

  lemma {:induction false} EntryAttrsJustified(t: Tree, d: Path, c: string, params: IterParams)
    requires d + [c] in t
    ensures forall a :: a in EntryAttrs(t, d, c, params) ==> Justified(t, d, params, a)
    decreases |Under(t, d)|, 0, 0
  {
    var p := d + [c];
    if t[p].Directory? && Children(t, p) != {} && params.recursive {
      UnderShrinks(t, d, c);
      EntriesJustified(t, p, params);
      forall a | a in Entries(t, p, params) ensures Justified(t, d, params, a) {
        var q :| q in t && p < q && t[q].File? && a == Attrs(Render(q), t[q].mtime, params);
        assert q[..|d|] == p[..|d|] == d;
        assert d < q;
      }
    } else if !params.recursive {
      forall a | a in EntryAttrs(t, d, c, params) ensures Justified(t, d, params, a) {
        assert FlatReport(t, p, a, params);
      }
    } else {
      forall a | a in EntryAttrs(t, d, c, params) ensures Justified(t, d, params, a) {
        assert d < p;
      }
    }
  }

  lemma {:induction false} EntriesOfContains(t: Tree, d: Path, names: seq<string>, params: IterParams, c: string)
    requires forall c :: c in names ==> d + [c] in t
    requires c in names
    ensures forall a :: a in EntryAttrs(t, d, c, params) ==> a in EntriesOf(t, d, names, params)
    decreases |names|
  {
    if names[0] != c {
      EntriesOfContains(t, d, names[1..], params, c);
    }
  }

  /** A recursive listing of a well-formed tree reports every file below the directory. */
  lemma {:induction false} RecursiveEntriesComplete(t: Tree, d: Path, params: IterParams)
    requires WF(t) && params.recursive
    ensures forall p :: p in t && d < p && t[p].File? ==> Attrs(Render(p), t[p].mtime, params) in Entries(t, d, params)
    decreases |Under(t, d)|
  {
    forall p | p in t && d < p && t[p].File? ensures Attrs(Render(p), t[p].mtime, params) in Entries(t, d, params) {
      var c := p[|d|];
      var top := d + [c];
      assert top == p[..|d| + 1];
      if |p| > |d| + 1 {
        WFPrefixes(t, p, |d| + 1);
      } else {
        assert top == p;
      }
      assert top in t;
      ChildrenMeaning(t, d, c);
      ChildPaths(t, d);
      SortedNamesMeaning(Children(t, d));
      EntriesOfContains(t, d, SortedNames(Children(t, d)), params, c);
      if top != p {
        var next := p[..|d| + 2];
        if |p| > |d| + 2 {
          WFPrefixes(t, p, |d| + 2);
        } else {
          assert next == p;
        }
        assert next in t && top < next && |next| == |top| + 1;
        assert next[|top|] in Children(t, top);
        assert top < p;
        UnderShrinks(t, d, c);
        RecursiveEntriesComplete(t, top, params);
      }
    }
  }

  /**
    A non-recursive listing reports every file directly inside the
    directory, and every non-empty directory inside it with a trailing "/".
   */
  lemma FlatEntriesComplete(t: Tree, d: Path, params: IterParams, c: string)
    requires !params.recursive && d + [c] in t
    ensures var p := d + [c];
      (t[p].File? ==> Attrs(Render(p), t[p].mtime, params) in Entries(t, d, params)) &&
      (t[p].Directory? && Children(t, p) != {} ==> Attrs(Render(p) + DirDelim, t[p].mtime, params) in Entries(t, d, params))
  {
    ChildrenMeaning(t, d, c);
    ChildPaths(t, d);
    SortedNamesMeaning(Children(t, d));
    EntriesOfContains(t, d, SortedNames(Children(t, d)), params, c);
  }

  /** Below a directory that has no file above it, no child has a file above it either. */
  lemma NoFileAboveChild(t: Tree, d: Path, c: string)
    requires !AncestorIsFile(t, d) && IsDirectoryAt(t, d)
    ensures !AncestorIsFile(t, d + [c])
  {
    var p := d + [c];
    forall i | 0 < i < |p| ensures !(p[..i] in t && t[p[..i]].File?) {
      if i < |d| {
        assert p[..i] == d[..i];
      } else {
        assert p[..i] == d;
      }
    }
  }

  /** The names of reported entries, as Iter hands them on. */
  function NamesOf(attrs: seq<IterObjectAttributes>): seq<string>
  {
    seq(|attrs|, i requires 0 <= i < |attrs| => attrs[i].name)
  }

  /** The options Iter forwards: the Recursive option if it was given, and nothing else. */
  function RecursiveOnly(options: seq<IterOptionType>): seq<IterOptionType>
  {
    if Recursive in options then [Recursive] else []
  }

  /** Iter never fails for its options, and lists recursively exactly when Recursive was given, never with times. */
  lemma IterOptionsAccepted(options: seq<IterOptionType>)
    ensures FirstUnsupported(SupportedIterOptions, RecursiveOnly(options)).None?
    ensures ApplyIterOptions(RecursiveOnly(options)) == IterParams(Recursive in options, false)
  {
  }

  // ---------------------------------------------------------------------
  // Reading
  // ---------------------------------------------------------------------

  /**
    A reader and the size it reports: over part of a file's bytes, or
    over a directory, which opens and seeks like a file but whose every
    read fails (EISDIR).
   */
  datatype RangeReader = RangeReader(content: seq<Byte>, size: int) | DirectoryReader(size: int)

  /** The bytes of `data` from offset `start` on; nothing past the end. */
  function From(data: seq<Byte>, start: nat): seq<Byte>
  {
    if start <= |data| then data[start..] else []
  }

  /** The size a range reader reports: what stat gives, less the offset sought to, capped by the length. */
  function ReportedSize(statSize: int, off: int, length: int): int
  {
    if length == -1 then statSize - Max(off, 0) else Min(length, statSize - Max(off, 0))
  }

  /**
    GetRange: the bytes of the object from max(off, 0) on, all of them
    when `length` is -1 and at most `length` of them otherwise, with the
    size the reader reports.  A directory is opened like a file; its
    size is `dirSize`, what stat reports for directories.
   */
  function GetRange(t: Tree, dirSize: int, cancelled: bool, name: Path, off: int, length: int): (r: Result<RangeReader, FsError>)
    ensures cancelled ==> r == Err(Cancelled)
    ensures !cancelled && name == [] ==> r == Err(EmptyName)
    ensures r.Ok? <==> !cancelled && name != [] && name in t && !AncestorIsFile(t, name)
    ensures r.Err? && IsObjNotFoundErr(r.error) <==> !cancelled && name != [] && !AncestorIsFile(t, name) && name !in t
    ensures r.Ok? ==> (r.value.DirectoryReader? <==> t[name].Directory?)
    ensures r.Ok? && t[name].Directory? ==> r.value.size == ReportedSize(dirSize, off, length)
    ensures r.Ok? && t[name].File? ==> r.value.content <= From(t[name].data, Max(off, 0))
    ensures r.Ok? && t[name].File? && length >= 0 ==> |r.value.content| <= length
    ensures r.Ok? && t[name].File? && (length == -1 || length >= |From(t[name].data, Max(off, 0))|) ==>
      r.value.content == From(t[name].data, Max(off, 0))
    ensures r.Ok? && t[name].File? && length >= 0 ==>
      var rest := From(t[name].data, Max(off, 0));
      r.value.content == rest[..Min(length, |rest|)]
    ensures r.Ok? && t[name].File? && length < -1 ==> r.value.content == []
    ensures r.Ok? && t[name].File? ==> r.value.size == ReportedSize(|t[name].data|, off, length)
  {
    if cancelled then Err(Cancelled)
    else if name == [] then Err(EmptyName)
    else if AncestorIsFile(t, name) then Err(NotADirectory)
    else if name !in t then Err(NotExist)
    else
      var newOffset := if off > 0 then off else 0;
      match t[name]
      case Directory(_) =>
        var size := dirSize - newOffset;
        Ok(DirectoryReader(if length == -1 then size else Min(length, size)))
      case File(data, _, _) =>
        var size := |data| - newOffset;
        var rest := From(data, newOffset);
        if length == -1 then Ok(RangeReader(rest, size))
        else if length <= 0 then Ok(RangeReader([], Min(length, size)))
        else Ok(RangeReader(rest[..Min(length, |rest|)], Min(length, size)))
  }

  /** Within a file, the size a range reader reports is the number of bytes it yields. */
  lemma GetRangeSizeIsContentLength(t: Tree, dirSize: int, name: Path, off: int, length: int)
    requires GetRange(t, dirSize, false, name, off, length).Ok? && t[name].File?
    requires off <= |t[name].data| && length >= -1
    ensures GetRange(t, dirSize, false, name, off, length).value.size == |GetRange(t, dirSize, false, name, off, length).value.content|
  {
  }

  /** Past the end of a file the reader yields nothing and reports a negative size. */
  lemma GetRangePastEnd(t: Tree, dirSize: int, name: Path, off: int, length: int)
    requires GetRange(t, dirSize, false, name, off, length).Ok? && t[name].File?
    requires off > |t[name].data| && length >= -1
    ensures GetRange(t, dirSize, false, name, off, length).value.content == []
    ensures GetRange(t, dirSize, false, name, off, length).value.size < 0 || length == 0
  {
  }

  /** Get: the whole object. */
  function Get(t: Tree, dirSize: int, cancelled: bool, name: Path): (r: Result<RangeReader, FsError>)
    ensures r.Ok? <==> !cancelled && name != [] && name in t && !AncestorIsFile(t, name)
    ensures r.Ok? && t[name].File? ==> r.value == RangeReader(t[name].data, |t[name].data|)
    ensures r.Ok? && t[name].Directory? ==> r.value == DirectoryReader(dirSize)
  {
    GetRange(t, dirSize, cancelled, name, 0, -1)
  }

  /** Exists: whether a file (not a directory) is at the name; an error when a file stands above it. */
  function Exists(t: Tree, cancelled: bool, name: Path): (r: Result<bool, FsError>)
    ensures r.Err? <==> cancelled || AncestorIsFile(t, name)
    ensures r == Ok(true) <==> !cancelled && !AncestorIsFile(t, name) && name != [] && name in t && t[name].File?
  {
    if cancelled then Err(Cancelled)
    else if AncestorIsFile(t, name) then Err(NotADirectory)
    else if name == [] || name !in t then Ok(false)
    else Ok(t[name].File?)
  }

  /**
    Exists says yes exactly when Get returns a reader over a file; Get of a
    directory succeeds while Exists says no; and Get's not-found error
    means Exists says no.
   */
  lemma ExistsAgreesWithGet(t: Tree, dirSize: int, name: Path)
    ensures Exists(t, false, name) == Ok(true) <==> Get(t, dirSize, false, name).Ok? && Get(t, dirSize, false, name).value.RangeReader?
    ensures Get(t, dirSize, false, name).Ok? && Get(t, dirSize, false, name).value.DirectoryReader? ==> Exists(t, false, name) == Ok(false)
    ensures Get(t, dirSize, false, name).Err? && IsObjNotFoundErr(Get(t, dirSize, false, name).error) ==> Exists(t, false, name) == Ok(false)
  {
  }

  // ---------------------------------------------------------------------
  // Conditional upload
  // ---------------------------------------------------------------------

  /** The upload options the bucket accepts: all three where extended attributes are supported, none elsewhere. */
  function SupportedObjectUploadOptions(xattrSupported: bool): (r: seq<UploadOptionType>)
    ensures xattrSupported ==> IfNotExists in r && IfMatch in r && IfNotMatch in r
    ensures !xattrSupported ==> r == []
  {
    if xattrSupported then [IfNotExists, IfMatch, IfNotMatch] else []
  }

  /**
    checkConditions: whether the upload may go ahead, given whether the
    object existed and its stored checksum (None when the attribute
    cannot be read).
   */
  function CheckConditions(params: UploadObjectParams, existed: bool, stored: Option<string>): (r: Option<FsError>)
    ensures params.condition.None? ==> r.None?
    ensures params.condition.Some? && !existed ==> (r.None? <==> params.ifNotMatch)
    ensures params.condition.Some? && existed && params.condition.value.versionType != ETag ==> r == Some(ConditionNotMet)
    ensures params.condition.Some? && existed && params.condition.value.versionType == ETag && stored.None? ==> r == Some(XattrMissing)
    ensures params.condition.Some? && existed && params.condition.value.versionType == ETag && stored.Some? ==>
      (r.None? <==> (params.ifNotMatch <==> stored.value != params.condition.value.value))
    ensures r.Some? ==> r == Some(ConditionNotMet) || r == Some(XattrMissing)
  {
    if params.condition.Some? && !existed && !params.ifNotMatch then Some(ConditionNotMet)
    else if params.condition.Some? && existed then
      if params.condition.value.versionType != ETag then Some(ConditionNotMet)
      else if stored.None? then Some(XattrMissing)
      else if params.ifNotMatch && stored.value == params.condition.value.value then Some(ConditionNotMet)
      else if !params.ifNotMatch && stored.value != params.condition.value.value then Some(ConditionNotMet)
      else None
    else None
  }

  /**
    The preconditions of section 13.1 of RFC 9110 for a single entity tag
    and strong comparison: If-Match holds when a current representation
    exists and its tag matches, If-None-Match when none exists or its tag
    differs.
   */
  predicate PreconditionHolds(params: UploadObjectParams, current: Option<string>)
  {
    params.condition.None? ||
    (if params.ifNotMatch then current.None? || current.value != params.condition.value.value
     else current.Some? && current.value == params.condition.value.value)
  }

  /** With an entity-tag condition and a readable checksum, checkConditions is exactly the RFC 9110 precondition. */
  lemma CheckConditionsIsPrecondition(params: UploadObjectParams, existed: bool, stored: Option<string>)
    requires params.condition.Some? ==> params.condition.value.versionType == ETag
    requires existed ==> stored.Some?
    ensures CheckConditions(params, existed, stored).None? <==> PreconditionHolds(params, if existed then stored else None)
  {
  }

  /** Up to opening the target file: either an early outcome, or the tree with parents created and whether the object existed. */
  datatype Staged =
    | Done(tree: Tree, err: Option<FsError>)
    | Opened(tree: Tree, existed: bool, params: UploadObjectParams)

  /**
    The steps of Upload before the conditions are checked, in the order
    the provider takes them: options are validated, then cancellation is
    checked, then the parent directories are created, then the target is
    opened (failing on an existing object under IfNotExists and on a
    directory).  The root cannot be uploaded to: it is a directory.
   */
  function OpenForUpload(t: Tree, xattrSupported: bool, cancelled: bool, name: Path, opts: seq<UploadOption>, now: int): (s: Staged)
    ensures s.Done? ==> s.err.Some?
    ensures s.Opened? ==> name != [] && (s.existed <==> name in t)
  {
    var unsupported := FirstUnsupported(SupportedObjectUploadOptions(xattrSupported), UploadOptionTypes(opts));
    var params := ApplyUploadOptions(opts);
    if unsupported.Some? then Done(t, Some(UnsupportedUploadOption(unsupported.value)))
    else if cancelled then Done(t, Some(Cancelled))
    else if name == [] then Done(t, Some(if params.ifNotExists then Exist else IsADirectory))
    else if AncestorIsFile(t, name) then Done(t, Some(NotADirectory))
    else
      var t1 := MkdirAll(t, Parent(name), now);
      assert name in t1 <==> name in t by {
        assert name !in PrefixesOf(Parent(name));
      }
      if name in t1 && params.ifNotExists then Done(t1, Some(Exist))
      else if name in t1 && t1[name].Directory? then Done(t1, Some(IsADirectory))
      else Opened(t1, name in t1, params)
  }

  /** The file an upload leaves behind: the content, with its checksum where attributes are supported. */
  function Uploaded(xattrSupported: bool, checksumOf: seq<Byte> -> string, data: seq<Byte>, now: int): Entry
  {
    File(data, now, if xattrSupported then Some(checksumOf(data)) else None)
  }

  /**
    Upload as the provider is written: opening a missing target creates
    it empty and a failed condition leaves it there; without extended
    attribute support the content is never copied, so the target ends up
    empty.
   */
  function UploadAsWritten(t: Tree, xattrSupported: bool, checksumOf: seq<Byte> -> string, cancelled: bool,
                           name: Path, opts: seq<UploadOption>, data: seq<Byte>, now: int): (r: (Tree, Option<FsError>))
    ensures OpenForUpload(t, xattrSupported, cancelled, name, opts, now).Done? ==>
      r == (OpenForUpload(t, xattrSupported, cancelled, name, opts, now).tree, OpenForUpload(t, xattrSupported, cancelled, name, opts, now).err)
  {
    match OpenForUpload(t, xattrSupported, cancelled, name, opts, now)
    case Done(t1, err) => (t1, err)
    case Opened(t1, existed, params) =>
      var t2 := if existed then t1 else t1[name := File([], now, None)];
      var failed := CheckConditions(params, existed, if existed then t1[name].checksum else None);
      if failed.Some? then (t2, failed)
      else (t1[name := File(if xattrSupported then data else [], now, if xattrSupported then Some(checksumOf(data)) else None)], None)
  }

  /**
    The upload as written differs from the intended one only where the
    source misbehaves: it always reports the same error, and with
    attribute support it leaves the same tree whenever the upload
    succeeds or the target already existed.
   */
  lemma AsWrittenAgreesWithIntended(t: Tree, xattrSupported: bool, checksumOf: seq<Byte> -> string, cancelled: bool,
                                    name: Path, opts: seq<UploadOption>, data: seq<Byte>, now: int)
    ensures UploadAsWritten(t, xattrSupported, checksumOf, cancelled, name, opts, data, now).1 ==
            UploadOutcome(t, xattrSupported, checksumOf, cancelled, name, opts, data, now).1
    ensures xattrSupported && (UploadOutcome(t, xattrSupported, checksumOf, cancelled, name, opts, data, now).1.None? || name in t) ==>
      UploadAsWritten(t, xattrSupported, checksumOf, cancelled, name, opts, data, now) ==
      UploadOutcome(t, xattrSupported, checksumOf, cancelled, name, opts, data, now)
  {
  }

  /**
    Upload as intended: a failed condition leaves no trace of a target
    that did not exist, and the content is stored whether or not
    attributes are supported.
   */
  function UploadOutcome(t: Tree, xattrSupported: bool, checksumOf: seq<Byte> -> string, cancelled: bool,
                         name: Path, opts: seq<UploadOption>, data: seq<Byte>, now: int): (r: (Tree, Option<FsError>))
    ensures OpenForUpload(t, xattrSupported, cancelled, name, opts, now).Done? ==>
      r == (OpenForUpload(t, xattrSupported, cancelled, name, opts, now).tree, OpenForUpload(t, xattrSupported, cancelled, name, opts, now).err)
    ensures r.1.Some? ==> r.0 == OpenForUpload(t, xattrSupported, cancelled, name, opts, now).tree
  {
    match OpenForUpload(t, xattrSupported, cancelled, name, opts, now)
    case Done(t1, err) => (t1, err)
    case Opened(t1, existed, params) =>
      var failed := CheckConditions(params, existed, if existed then t1[name].checksum else None);
      if failed.Some? then (t1, failed)
      else (t1[name := Uploaded(xattrSupported, checksumOf, data, now)], None)
  }

  /** Options are validated before cancellation is looked at, and cancellation before anything is written. */
  lemma UploadValidatesFirst(t: Tree, xattrSupported: bool, checksumOf: seq<Byte> -> string, cancelled: bool,
                             name: Path, opts: seq<UploadOption>, data: seq<Byte>, now: int)
    ensures var unsupported := FirstUnsupported(SupportedObjectUploadOptions(xattrSupported), UploadOptionTypes(opts));
      var r := UploadOutcome(t, xattrSupported, checksumOf, cancelled, name, opts, data, now);
      (unsupported.Some? ==> r == (t, Some(UnsupportedUploadOption(unsupported.value)))) &&
      (unsupported.None? && cancelled ==> r == (t, Some(Cancelled)))
    ensures !xattrSupported && opts != [] ==> UploadOutcome(t, xattrSupported, checksumOf, cancelled, name, opts, data, now).1.Some?
  {
    if !xattrSupported && opts != [] {
      assert UploadOptionTypes(opts)[0] !in SupportedObjectUploadOptions(xattrSupported);
    }
  }

  /** An IfNotExists upload over an existing object fails with an error IsConditionNotMetErr recognises and changes nothing. */
  lemma IfNotExistsOnExisting(t: Tree, checksumOf: seq<Byte> -> string, name: Path, data: seq<Byte>, now: int)
    requires WF(t) && name in t
    ensures var r := UploadOutcome(t, true, checksumOf, false, name, [WithIfNotExists], data, now);
      r.1.Some? && IsConditionNotMetErr(r.1.value) && r.0 == t
  {
    assert ApplyUploadOptions([WithIfNotExists]).ifNotExists;
    if !AncestorIsFile(t, name) {
      var t1 := MkdirAll(t, Parent(name), now);
      assert t1 == t by {
        forall i | 0 < i <= |Parent(name)| ensures Parent(name)[..i] in t {
          WFPrefixes(t, name, i);
          assert Parent(name)[..i] == name[..i];
        }
      }
    } else {
      var i :| 0 < i < |name| && name[..i] in t && t[name[..i]].File?;
      WFPrefixes(t, name, i);
    }
  }

  /** Upload keeps the tree well formed and touches only the target and its missing parents. */
  lemma UploadWF(t: Tree, xattrSupported: bool, checksumOf: seq<Byte> -> string, cancelled: bool,
                 name: Path, opts: seq<UploadOption>, data: seq<Byte>, now: int)
    requires WF(t)
    ensures var r := UploadOutcome(t, xattrSupported, checksumOf, cancelled, name, opts, data, now).0;
      WF(r) && forall k :: k in t && k != name ==> k in r && r[k] == t[k]
  {
    var s := OpenForUpload(t, xattrSupported, cancelled, name, opts, now);
    if s.Opened? {
      MkdirAllWF(t, name, now);
    } else if name != [] && !AncestorIsFile(t, name) {
      MkdirAllWF(t, name, now);
    }
  }

  /** After a successful upload, Get returns exactly the uploaded bytes. */
  lemma UploadThenGet(t: Tree, xattrSupported: bool, checksumOf: seq<Byte> -> string, cancelled: bool,
                      name: Path, opts: seq<UploadOption>, data: seq<Byte>, now: int)
    requires WF(t)
    requires UploadOutcome(t, xattrSupported, checksumOf, cancelled, name, opts, data, now).1.None?
    ensures forall dirSize :: Get(UploadOutcome(t, xattrSupported, checksumOf, cancelled, name, opts, data, now).0, dirSize, false, name) == Ok(RangeReader(data, |data|))
  {
    MkdirAllWF(t, name, now);
    var r := UploadOutcome(t, xattrSupported, checksumOf, cancelled, name, opts, data, now).0;
    var t1 := MkdirAll(t, Parent(name), now);
    assert r == t1[name := Uploaded(xattrSupported, checksumOf, data, now)];
    forall i | 0 < i < |name| ensures !(name[..i] in r && r[name[..i]].File?) {
      assert name[..i] != name;
    }
  }

  /** As written, an IfMatch upload of a missing object fails but leaves an empty object behind; as intended, nothing is left. */
  lemma FailedConditionLeavesEmptyFile(t: Tree, checksumOf: seq<Byte> -> string, name: Path, tag: string, data: seq<Byte>, now: int)
    requires WF(t) && name != [] && name !in t && !AncestorIsFile(t, name)
    ensures var r := UploadAsWritten(t, true, checksumOf, false, name, [WithIfMatch(ObjectVersion(ETag, tag))], data, now);
      r.1 == Some(ConditionNotMet) && name in r.0 && r.0[name] == File([], now, None)
    ensures var r := UploadOutcome(t, true, checksumOf, false, name, [WithIfMatch(ObjectVersion(ETag, tag))], data, now);
      r.1 == Some(ConditionNotMet) && name !in r.0
  {
    var opts := [WithIfMatch(ObjectVersion(ETag, tag))];
    assert ApplyUploadOptions(opts) == ApplyUploadOption(NoUploadParams, opts[0]) by {
      assert opts[..0] == [];
    }
    assert name !in PrefixesOf(Parent(name));
  }

  /** As written, without attribute support a successful upload stores no bytes; as intended, it stores the content. */
  lemma NoXattrDropsContent(t: Tree, checksumOf: seq<Byte> -> string, name: Path, data: seq<Byte>, now: int)
    requires WF(t) && name != [] && !AncestorIsFile(t, name) && (name in t ==> t[name].File?)
    ensures var r := UploadAsWritten(t, false, checksumOf, false, name, [], data, now);
      r.1.None? && forall dirSize :: Get(r.0, dirSize, false, name) == Ok(RangeReader([], 0))
    ensures var r := UploadOutcome(t, false, checksumOf, false, name, [], data, now);
      r.1.None? && forall dirSize :: Get(r.0, dirSize, false, name) == Ok(RangeReader(data, |data|))
  {
    assert name !in PrefixesOf(Parent(name));
    MkdirAllWF(t, name, now);
    var t1 := MkdirAll(t, Parent(name), now);
    var r := t1[name := File([], now, None)];
    forall i | 0 < i < |name| ensures !(name[..i] in r && r[name[..i]].File?) {
      assert name[..i] != name;
    }
    UploadThenGet(t, false, checksumOf, false, name, [], data, now);
  }

  // ---------------------------------------------------------------------
  // The bucket
  // ---------------------------------------------------------------------

  /** A filesystem bucket: the tree below its root directory. */
  class FsBucket {
    var tree: Tree
    /** Whether the host supports extended attributes (xattr.XATTR_SUPPORTED). */
    const xattrSupported: bool
    /** The checksum stored in the attribute: SHA-256 of the content. */
    const checksumOf: seq<Byte> -> string

    predicate Valid()
      reads this
    {
      WF(tree)
    }

    /** A bucket over an empty root directory. */
    constructor (xattrSupported: bool, checksumOf: seq<Byte> -> string)
      ensures Valid() && tree == map[]
      ensures this.xattrSupported == xattrSupported && this.checksumOf == checksumOf
    {
      tree := map[];
      this.xattrSupported := xattrSupported;
      this.checksumOf := checksumOf;
    }

    /** os.ReadDir: the names inside a directory, sorted. */
    method ReadDir(d: Path) returns (names: seq<string>)
      ensures names == SortedNames(Children(tree, d))
    {
      var remaining := Children(tree, d);
      ghost var sorted := SortedNames(remaining);
      names := [];
      while remaining != {}
        invariant names + SortedNames(remaining) == sorted
        decreases |remaining|
      {
        LeastExists(remaining);
        var m :| m in remaining && IsLeast(m, remaining);
        SortedNamesStep(remaining, m);
        assert names + SortedNames(remaining) == (names + [m]) + SortedNames(remaining - {m});
        names := names + [m];
        remaining := remaining - {m};
      }
    }

    /**
      IterWithAttributes: cancellation is checked first, then the options;
      a file above the directory is an error, a missing directory or a
      file lists nothing; otherwise the callback receives the directory's
      entries in order until it fails.
     */
    method IterWithAttributes(cancelled: bool, dir: Path, options: seq<IterOptionType>, f: IterObjectAttributes -> Option<string>)
      returns (visited: seq<IterObjectAttributes>, err: Option<FsError>)
      ensures (visited, err) == IterOutcome(tree, cancelled, dir, options, f)
      decreases |Under(tree, dir)|, 2
    {
      if cancelled {
        return [], Some(Cancelled);
      }
      var unsupported := FirstUnsupported(SupportedIterOptions, options);
      if unsupported.Some? {
        return [], Some(UnsupportedIterOption(unsupported.value));
      }
      if AncestorIsFile(tree, dir) {
        return [], Some(NotADirectory);
      }
      if !IsDirectoryAt(tree, dir) {
        return [], None;
      }
      var failed;
      visited, failed := ListDirectory(dir, options, f);
      err := CallbackError(failed);
    }

    /** The listing of an existing directory: its entries in name order, each contributing as EntryAttrs says. */
    method ListDirectory(dir: Path, options: seq<IterOptionType>, f: IterObjectAttributes -> Option<string>)
      returns (visited: seq<IterObjectAttributes>, failed: Option<string>)
      requires FirstUnsupported(SupportedIterOptions, options).None?
      requires !AncestorIsFile(tree, dir) && IsDirectoryAt(tree, dir)
      ensures (visited, failed) == Visit(Entries(tree, dir, ApplyIterOptions(options)), f)
      decreases |Under(tree, dir)|, 1
    {
      var params := ApplyIterOptions(options);
      var names := ReadDir(dir);
      ChildPaths(tree, dir);
      ghost var all := Entries(tree, dir, params);
      assert all == EntriesOf(tree, dir, names[0..], params);
      visited, failed := [], None;
      assert visited + Visit(all, f).0 == Visit(all, f).0;
      var i := 0;
      while i < |names|
        invariant 0 <= i <= |names| && failed.None?
        invariant Visit(all, f) == (visited + Visit(EntriesOf(tree, dir, names[i..], params), f).0,
                                    Visit(EntriesOf(tree, dir, names[i..], params), f).1)
      {
        var c := names[i];
        ghost var here := EntryAttrs(tree, dir, c, params);
        ghost var rest := EntriesOf(tree, dir, names[i + 1..], params);
        EntriesOfStep(tree, dir, names, i, params);
        var got;
        got, failed := ListEntry(dir, c, options, f);
        VisitStep(all, visited, here, rest, f);
        visited := visited + got;
        if failed.Some? {
          return;
        }
        i := i + 1;
      }
      assert EntriesOf(tree, dir, names[i..], params) == [];
      assert visited + [] == visited;
    }

    /**
      One entry of a directory listing: a file is reported, an empty
      directory skipped, a non-empty one listed recursively or reported
      with a trailing "/".  The context was live when the listing began
      and stays so for the recursive listing.
     */
    method ListEntry(dir: Path, c: string, options: seq<IterOptionType>, f: IterObjectAttributes -> Option<string>)
      returns (got: seq<IterObjectAttributes>, failed: Option<string>)
      requires FirstUnsupported(SupportedIterOptions, options).None?
      requires !AncestorIsFile(tree, dir) && IsDirectoryAt(tree, dir) && dir + [c] in tree
      ensures (got, failed) == Visit(EntryAttrs(tree, dir, c, ApplyIterOptions(options)), f)
      decreases |Under(tree, dir)|, 0
    {
      var params := ApplyIterOptions(options);
      var p := dir + [c];
      EntryAttrsCases(tree, dir, c, params);
      var entry := tree[p];
      if entry.Directory? && Children(tree, p) == {} {
        got, failed := [], None;
      } else if entry.Directory? && params.recursive {
        UnderShrinks(tree, dir, c);
        NoFileAboveChild(tree, dir, c);
        var err;
        got, err := IterWithAttributes(false, p, options, f);
        failed := if err.Some? then Some(err.value.cause) else None;
      } else {
        var attrs := Attrs(if entry.Directory? then Render(p) + DirDelim else Render(p), entry.mtime, params);
        VisitSingle(attrs, f);
        got, failed := [attrs], f(attrs);
      }
    }

    /** Iter: IterWithAttributes with only the Recursive option passed on, the callback seeing names. */
    method Iter(cancelled: bool, dir: Path, options: seq<IterOptionType>, f: string -> Option<string>)
      returns (visited: seq<string>, err: Option<FsError>)
      ensures var o := IterOutcome(tree, cancelled, dir, RecursiveOnly(options), (a: IterObjectAttributes) => f(a.name));
        visited == NamesOf(o.0) && err == o.1
    {
      var filtered: seq<IterOptionType> := [];
      var i := 0;
      while i < |options|
        invariant 0 <= i <= |options|
        invariant Recursive !in options[..i]
      {
        if options[i] == Recursive {
          filtered := [Recursive];
          break;
        }
        assert options[..i + 1] == options[..i] + [options[i]];
        i := i + 1;
      }
      assert filtered == RecursiveOnly(options) by {
        if i == |options| {
          assert options[..i] == options;
        }
      }
      var attrs;
      attrs, err := IterWithAttributes(cancelled, dir, filtered, (a: IterObjectAttributes) => f(a.name));
      visited := NamesOf(attrs);
    }

    /**
      Upload, with the target removed again when a condition fails on an
      object that did not exist and the content stored whether or not
      attributes are supported.
     */
    method Upload(cancelled: bool, name: Path, opts: seq<UploadOption>, data: seq<Byte>, now: int) returns (err: Option<FsError>)
      requires Valid()
      modifies this
      ensures Valid()
      ensures (tree, err) == UploadOutcome(old(tree), xattrSupported, checksumOf, cancelled, name, opts, data, now)
    {
      var unsupported := FirstUnsupported(SupportedObjectUploadOptions(xattrSupported), UploadOptionTypes(opts));
      if unsupported.Some? {
        return Some(UnsupportedUploadOption(unsupported.value));
      }
      if cancelled {
        return Some(Cancelled);
      }
      var params := ApplyUploadOptions(opts);
      if name == [] {
        return Some(if params.ifNotExists then Exist else IsADirectory);
      }
      if AncestorIsFile(tree, name) {
        return Some(NotADirectory);
      }
      MkdirAllWF(tree, name, now);
      assert name !in PrefixesOf(Parent(name));
      tree := MkdirAll(tree, Parent(name), now);
      ghost var parents := tree;
      var existed := name in tree;
      if existed {
        if params.ifNotExists {
          return Some(Exist);
        }
        if tree[name].Directory? {
          return Some(IsADirectory);
        }
      } else {
        tree := tree[name := File([], now, None)];
      }
      assert OpenForUpload(old(tree), xattrSupported, cancelled, name, opts, now) == Opened(parents, existed, params);
      var failed := CheckConditions(params, existed, if existed then tree[name].checksum else None);
      if failed.Some? {
        if !existed {
          tree := tree - {name};
          assert tree == parents;
        }
        return failed;
      }
      tree := tree[name := Uploaded(xattrSupported, checksumOf, data, now)];
      assert tree == parents[name := Uploaded(xattrSupported, checksumOf, data, now)];
      return None;
    }

    /**
      Delete: the entry at the name and everything below it are removed,
      then each parent that has become empty, up to the root.  A file
      above the name is an error and changes nothing.
     */
    method Delete(cancelled: bool, name: Path) returns (err: Option<FsError>)
      requires Valid()
      modifies this
      ensures Valid()
      ensures cancelled ==> err == Some(Cancelled) && tree == old(tree)
      ensures !cancelled && AncestorIsFile(old(tree), name) ==> err == Some(NotADirectory) && tree == old(tree)
      ensures !cancelled && !AncestorIsFile(old(tree), name) ==> err == None && tree == PruneUp(old(tree), name)
    {
      if cancelled {
        return Some(Cancelled);
      }
      if AncestorIsFile(tree, name) {
        return Some(NotADirectory);
      }
      if name != [] {
        PruneUpWF(tree, name);
      }
      var file := name;
      while file != []
        invariant PruneUp(tree, file) == PruneUp(old(tree), name)
        decreases |file|
      {
        ghost var before, removed := tree, file;
        tree := RemoveSubtree(tree, file);
        file := Parent(file);
        if !IsEmptyDir(tree, file) {
          assert tree == PruneUp(before, removed);
          break;
        }
      }
      return None;
    }
  }
}
